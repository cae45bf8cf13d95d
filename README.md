# PC Engine bus mapper and VDC register helpers, in Dafny

This project models the memory-bus core of the HuExpress PC Engine emulator
as it is declared in `hard_pce.h`: the bank-switched address mapper, the
byte and word bus accesses the CPU core calls, and the small helpers over
the video display controller (VDC) registers defined beside them.

- `word.dfy` (module `Word`): the `uint8_t`/`uint16_t` ranges, the `UWord`
  union of a 16-bit register and its two bytes, 16-bit wrap-around, and the
  arithmetic facts the other modules rely on.
- `mapper.dfy` (module `Mapper`): the mapper. The CPU's 64 KiB are eight
  8-KiB slots; `MMR[P]` selects one of 256 banks for slot `P`; the tables
  `MemoryMapR`/`MemoryMapW` locate each bank for reads and for writes; and
  `PageR[P]`/`PageW[P]` cache the selected entry. The cached page is biased by
  `-P * 0x2000`, so indexing it with the full 16-bit address reaches the
  right byte of the bank. A host pointer is a `Ptr(region, offset)`, so the
  bias is an ordinary, possibly negative, offset. The I/O window is the
  sentinel pointer `IOAREA`, four bytes into `NULLRAM`. Slot routing compares
  the cached page with that pointer, as the C code does. The class
  `Machine` holds the buffers (RAM, backup RAM, extra RAM, VRAM, ROM,
  `NULLRAM`) and the five global arrays. Its invariant `Valid` says three
  things. The buffers are distinct. Every one of the 256 table entries is a
  whole 8-KiB bank of some buffer, except that an entry into the 2-KiB
  backup RAM may be a short bank that starts inside it and runs past its
  end. Each cached page agrees with its slot's selected bank.
- `vdc.dfy` (module `Vdc`): `IO_VDC_REG_INC`, `IO_VDC_STATUS`, the display
  bounds `MINLINE`/`MAXLINE` and `SCREEN_WIDTH`/`SCREEN_HEIGHT`, and the
  interrupt/display enable bits. The pure macros are functions over the
  32-register file as a value. The increment is a method of `VdcState`,
  which owns `io.VDC` as an array, and it is proved against the function
  `Incremented`.

What the proofs establish:
- Bank switching changes only the chosen slot. Repeating it changes nothing.
  Every page stays consistent with the tables.
- A cached page equals the sentinel exactly when the bank's table entry does.
  This relies on `NULLRAM` being 0x2004 bytes: a biased flat page can never
  collide with `IOAREA`.
- Every byte access indexes inside the bank it resolves to, at
  `bank offset + (addr - P * 0x2000)`. In every buffer but the backup RAM,
  that index is also inside the buffer. In the backup RAM it is inside
  exactly when it falls within the 0x800 bytes.
- Word accesses are little-endian byte pairs through `PageR`. They skip the
  sentinel check, and on a slot that holds the I/O window they are defined
  only in slot 0.
- For a register other than CR, `n` increments advance the register by `n`
  steps modulo 2^16. Incrementing CR itself changes the step as it goes.

The peripheral dispatcher is not part of this model: `IO_read` and `IO_write`
are only declared in this header. `Read8` returns `IoRead(addr)` for "the
value `IO_read(addr)` returns". `Write8` returns `delegated == true` when the
store goes to `IO_write(addr, byte)`. The model does not constrain what
`IO_write` does: to VRAM, to the status latch, to the bank selection or to
the tables. After a delegated store `Write8` promises only that the machine
invariant holds. `Read8` is a function of the machine, so a read handed to
`IO_read` is modelled as changing nothing in it.

`pce_write16` stores through `PageR`, whereas `pce_write8` stores through
`PageW`. See Findings.

## Model

| member | source | states |
|---|---|---|
| `Word.UWord.W` | huexpress-go/components/huexpress/engine/hard_pce.h:75-80 | the word view of the union has `l` as its low byte and `h` as its high byte (little-endian host) |
| `Word.FromW` | huexpress-go/components/huexpress/engine/hard_pce.h:75-80 | storing a word into the union and reading `W` back gives the same word |
| `Word.BytesRoundTrip` | huexpress-go/components/huexpress/engine/hard_pce.h:75-80 | the byte view is recovered from the word view: the two views determine each other |
| `Word.AddWrap` | huexpress-go/components/huexpress/engine/hard_pce.h:225 | `uint16_t` addition: the result is below 2^16 and congruent to the exact sum |
| `Mapper.Slot` | huexpress-go/components/huexpress/engine/hard_pce.h:294 | `addr >> 13` is the slot whose 8-KiB window contains `addr`, and `addr % 0x2000` is the offset inside it |
| `Mapper.BiasCancels` | huexpress-go/components/huexpress/engine/hard_pce.h:334-335 | indexing the page biased by `-P*0x2000` with the full address reaches `offset + addr % 0x2000` of the bank; that index lies within the bank's 8 KiB; it is within the buffer for every region but the backup RAM, and within the backup RAM exactly when it falls short of the buffer's end |
| `Mapper.CacheRouting` | huexpress-go/components/huexpress/engine/hard_pce.h:334-335 | for an entry that fits its buffer, the cached page equals `IOAREA` if and only if the table entry does: no flat bank is mistaken for the I/O window |
| `Mapper.SetBank` | huexpress-go/components/huexpress/engine/hard_pce.h:328-336 | after `pce_bank_set(P, V)`, `MMR[P] == V`; `PageR[P]`/`PageW[P]` are the sentinel when their own table's entry is, and otherwise that entry moved down by `P*0x2000`, decided independently; every other slot is unchanged |
| `Mapper.SetBankConsistent` | huexpress-go/components/huexpress/engine/hard_pce.h:328-336 | bank switching keeps every slot's pages consistent with its selected bank's table entries |
| `Mapper.SetBankIdempotent` | huexpress-go/components/huexpress/engine/hard_pce.h:328-336 | selecting the same bank twice gives the same state as selecting it once |
| `Mapper.SetBankLastWins` | huexpress-go/components/huexpress/engine/hard_pce.h:328-336 | of two selections in the same slot only the last one matters |
| `Mapper.SetBankCommutes` | huexpress-go/components/huexpress/engine/hard_pce.h:328-336 | selections in different slots commute |
| `Mapper.Machine.SlotFacts` | huexpress-go/components/huexpress/engine/hard_pce.h:199-203 | under the machine invariant each slot's pages are the cached entries of its bank, the entries fit their buffers, and page routing agrees with table routing |
| `Mapper.Machine.constructor` | huexpress-go/components/huexpress/engine/hard_pce.h:140-203 | a machine built from bank tables whose entries all fit (whole banks, or short banks of the backup RAM) satisfies the invariant, with the given ROM image, tables and bank selection |
| `Mapper.Machine.BankSet` | huexpress-go/components/huexpress/engine/hard_pce.h:328-336 | `pce_bank_set` on the global arrays: the new `MMR`/`PageR`/`PageW` are `SetBank` of the old ones, the tables and buffers are untouched, and the invariant holds |
| `Mapper.Machine.Read8` | huexpress-go/components/huexpress/engine/hard_pce.h:291-300 | for a byte inside its buffer, `pce_read8` goes to `IO_read(addr)` exactly when the read entry of the slot's bank is `IOAREA`; otherwise it returns byte `addr % 0x2000` of that bank, without changing anything |
| `Mapper.Machine.Write8` | huexpress-go/components/huexpress/engine/hard_pce.h:302-311 | for a byte inside its buffer, `pce_write8` goes to `IO_write` exactly when the write entry is `IOAREA`, and then the buffers, the bank selection and the tables are left to `IO_write` (only the invariant is kept); otherwise the bank selection and tables are unchanged and exactly one byte changes, byte `addr % 0x2000` of the write bank; when the read and write entries coincide, a following `pce_read8` returns the byte |
| `Mapper.Machine.Read16` | huexpress-go/components/huexpress/engine/hard_pce.h:313-317 | `pce_read16` reads through `PageR` without a sentinel check; the result's `UWord` view has the byte at the resolved location as `l` and the next one as `h` |
| `Mapper.Machine.Write16` | huexpress-go/components/huexpress/engine/hard_pce.h:319-323 | `pce_write16` stores the low byte at the location `PageR` resolves to and the high byte after it, changes nothing else, and a following `pce_read16` returns the word |
| `Mapper.Machine.Write16ThroughPageW` | huexpress-go/components/huexpress/engine/hard_pce.h:302-311 | the word store resolved through `PageW`, as the byte store is: only the two bytes of the write bank change, so a bank written into the sink keeps its ROM |
| `Mapper.Machine.Read16IsBytePair` | huexpress-go/components/huexpress/engine/hard_pce.h:291-317 | away from the I/O window and the last byte of a slot, a word access in bounds makes both byte accesses in bounds, and it equals `read8(addr) + 256 * read8(addr + 1)` |
| `Mapper.Machine.WholeBankFits` | huexpress-go/components/huexpress/engine/hard_pce.h:291-317 | in a bank of any buffer but the backup RAM, every byte access is in bounds, and so is every word access that does not start on the slot's last byte |
| `Mapper.Machine.BackupBankBounds` | huexpress-go/components/huexpress/engine/hard_pce.h:148 | in a bank of the 0x800-byte backup RAM, a byte or word access is in bounds exactly when it ends before offset 0x800 |
| `Mapper.Machine.WordOnIoWindow` | huexpress-go/components/huexpress/engine/hard_pce.h:313-317 | on a slot holding the I/O window a word read is defined exactly below address 0x1FFF (slot 0 only), and then reads `NULLRAM[4 + addr]`, `NULLRAM[5 + addr]` instead of calling `IO_read` |
| `Mapper.Machine.RomBankRead` | huexpress-go/components/huexpress/engine/hard_pce.h:291-300 | a slot whose bank is ROM bank `k` reads ROM byte `k * 0x2000 + addr % 0x2000` |
| `Mapper.WordStoreReachesProtectedRom` | huexpress-go/components/huexpress/engine/hard_pce.h:319-323 | a word store to a bank read from ROM but written to memory outside ROM (not the I/O window) changes the ROM image, where `pce_write8` would not (`Mapper.ByteStoreSparesProtectedRom`) |
| `Mapper.ByteStoreSparesProtectedRom` | huexpress-go/components/huexpress/engine/hard_pce.h:302-311 | a byte store to a bank whose write entry is memory outside ROM leaves the ROM image unchanged |
| `Vdc.Status` | huexpress-go/components/huexpress/engine/hard_pce.h:226 | `IO_VDC_STATUS(bit)` is 0 or 1, and 1 exactly when the flag's bit of `vdc_status` is set; the flags and their bit numbers are the `vdc_stat_t` values at lines 19-28 |
| `Vdc.Enabled` | huexpress-go/components/huexpress/engine/hard_pce.h:234-242 | each enable macro is 0 or its mask, non-zero exactly when that bit of DCR (SATB, DMA) or CR (sprite hit, overflow, raster, vblank, sprites, screen) is set |
| `Vdc.MinLine` | huexpress-go/components/huexpress/engine/hard_pce.h:227 | MINLINE is VDS + VSW, the two bytes of VPR added without 8-bit wrap, so between 0 and 510 |
| `Vdc.ScreenHeight` | huexpress-go/components/huexpress/engine/hard_pce.h:231 | SCREEN_HEIGHT is between 1 and 65536 (no 16-bit wrap of VDW + 1) |
| `Vdc.MaxLine` | huexpress-go/components/huexpress/engine/hard_pce.h:228 | MAXLINE is never below MINLINE, and the window from MINLINE to MAXLINE spans exactly SCREEN_HEIGHT lines |
| `Vdc.ScreenWidth` | huexpress-go/components/huexpress/engine/hard_pce.h:230 | SCREEN_WIDTH is a multiple of 8 between 8 and 2048, eight pixels per unit of the low byte of HDR plus one |
| `Vdc.IncStep` | huexpress-go/components/huexpress/engine/hard_pce.h:225 | the increment is 1, 32, 64 or 128 as bits 11-12 of CR are 0, 1, 2 or 3 |
| `Vdc.Incremented` | huexpress-go/components/huexpress/engine/hard_pce.h:225 | after `IO_VDC_REG_INC(reg)` the register's word has advanced by the step modulo 2^16 and no other register has changed |
| `Vdc.IncrementedTimesFrame` | huexpress-go/components/huexpress/engine/hard_pce.h:225 | any number of increments of one register leaves all other registers, CR included, as they were |
| `Vdc.IncrementedTimesSteps` | huexpress-go/components/huexpress/engine/hard_pce.h:225 | with `reg` other than CR, the step never changes, so `n` increments are `n` wrapped 16-bit additions of the same step |
| `Vdc.SteppedCloses` | huexpress-go/components/huexpress/engine/hard_pce.h:225 | `n` wrapped `uint16_t` additions of a step equal one addition of `n * step`, wrapped once |
| `Vdc.IncrementedTimesAdvances` | huexpress-go/components/huexpress/engine/hard_pce.h:225 | with `reg` other than CR, `n` increments advance the register by `n * step` modulo 2^16 |
| `Vdc.VdcState.RegInc` | huexpress-go/components/huexpress/engine/hard_pce.h:225 | the in-place macro on `io.VDC`: the new register file is `Incremented` of the old one |

## Left out

- `IO_read`, `IO_write`: only declared in the header (lines 256-257). The
  bus operations report that they delegate to them, and nothing more. The
  effects of `IO_write` are not constrained, whether on VRAM, the status
  latch, `MMR` or the tables. For `IO_read`, see the `Read8` line below.
- `pce_init`, `pce_reset`, `pce_term`, `pce_run` and the construction of
  `MemoryMapR`/`MemoryMapW`: only declared. The `Machine` constructor takes
  the tables and the initial bank selection as given, so which banks go to
  the write sink is not modelled. It leaves the initial
  RAM, VRAM and `NULLRAM` contents unspecified.
- Mapper.Machine.Read8: requires the byte to lie inside the buffer the page
  points into, unless the slot is the I/O window. Only a short backup-RAM
  bank can fail this. Past the buffer's end the C access is undefined
  behaviour.
- Mapper.Machine.Read8: a read handed to `IO_read` is modelled as leaving
  the buffers, `MMR`, `PageR`/`PageW` and both tables unchanged. `IO_read`'s
  effects on the I/O registers, such as the status latch and the VDC
  address registers, lie outside `Machine` and are not modelled.
- Mapper.Machine.Write8: requires the same bound as `Read8`, on the write
  entry. When the store goes to `IO_write`, the contract leaves open every
  buffer, `MMR`, `PageR`/`PageW` and both tables, and keeps only the
  invariant, because `IO_write` is not part of this model.
- Mapper.Machine.Read16: requires both bytes to lie inside the buffer the
  page points into. Outside that the C access is undefined behaviour, so
  the model gives it no meaning.
- Mapper.Machine.Write16: requires the same bounds as `Read16`, for the same reason.
- The `USE_MEM_MACROS` variants (lines 264-287) have the same semantics as
  the inline functions. Only the inline functions are modelled.
- `TRACE_IO` logging in `pce_bank_set` has no effect on state.
- `IO_VDC_REG_ACTIVE`, `vdc_reg`, `vdc_satb`, `vdc_mode_chg` and
  `vdc_irq_queue` are plain fields, or an accessor over one, with no
  operation in this header.
- The VCE palette, PSG, timer, joypad, IRQ and remanence fields of `IO_t` are
  plain storage with no operation in this header.
- `SPRAM`, `Palette`, `Scanline`, `Cycles`, `SF2`, `ROM_PTR`, `ROM_CRC` and
  `ROM_SIZE` in `PCE_t` are not touched by the modelled operations.
- The `CLOCK_*`, `CYCLES_*`, `PSG_*` and `DMA_TRANSFER_*` constants are
  compile-time values with no operation here.
- `h6280.h` (the CPU core) and `main.c` (the application entry) are not part
  of this model.
- The host is assumed little-endian, as the target devices are. `UWord.B.l`
  is the low byte, and a word store puts the low byte first.

## Findings

| source | as written | input that shows it | evidently intended | confidence | as-written member | corrected member |
|---|---|---|---|---|---|---|
| huexpress-go/components/huexpress/engine/hard_pce.h:319-323 | `pce_write16` stores through `PageR[addr >> 13]` | a slot holding a bank whose `MemoryMapR` entry is a ROM bank and whose `MemoryMapW` entry is the sink; a word whose low byte differs from the ROM byte at `addr` | the word store resolves through `PageW`, like `pce_write8`, so ROM is never written | medium; not executed | `Mapper.Machine.Write16`, exhibited by `Mapper.WordStoreReachesProtectedRom` | `Mapper.Machine.Write16ThroughPageW` |
