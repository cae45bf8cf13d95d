/** The bank-switched address mapper and the bus access path of the PC Engine
    hardware core.

    The CPU sees 64 KiB split into eight 8-KiB slots. `MMR[P]` holds the
    bank (0..255) selected for slot `P`; the 256-entry tables `MemoryMapR` and
    `MemoryMapW` say where each bank lives in host memory for reads and for
    writes, and `PageR[P]`/`PageW[P]` cache the entry of the selected bank,
    biased by `-P * 0x2000` so that the full 16-bit address indexes it.

    A host pointer is modelled as a region and an offset (`Ptr`). The I/O
    window is the sentinel pointer `IOAREA`, four bytes into `NULLRAM`. */
module Mapper {
  import opened Word

  const SLOT_COUNT := 8
  const BANK_COUNT := 0x100
  const BANK_SIZE := 0x2000

  const RAM_SIZE := 0x2000
  const BACKUP_RAM_SIZE := 0x800
  const VRAM_SIZE := 0x1_0000
  const NULLRAM_SIZE := 0x2004

  /** The host byte buffers a bank can live in. */
  datatype Region = Ram | BackupRam | ExtraRam | Vram | NullRam | Rom

  /** A host `uint8_t *`: a buffer and a (possibly negative) offset into it. */
  datatype Ptr = Ptr(region: Region, offset: int)

  /** `IOAREA`, the sentinel meaning "this bank is the peripheral I/O window". */
  const IOAREA := Ptr(NullRam, 4)

  /** `addr >> 13`: the slot an address falls in. */
  function Slot(addr: u16): (p: nat)
    ensures p < SLOT_COUNT
    ensures p * BANK_SIZE <= addr < (p + 1) * BANK_SIZE
    ensures addr % BANK_SIZE == addr - p * BANK_SIZE
  {
    addr / BANK_SIZE
  }

  /** Length of each buffer; ROM and the cartridge's extra RAM are sized at load. */
  function RegionSize(r: Region, romSize: nat, extraSize: nat): nat
  {
    match r
    case Ram => RAM_SIZE
    case BackupRam => BACKUP_RAM_SIZE
    case ExtraRam => extraSize
    case Vram => VRAM_SIZE
    case NullRam => NULLRAM_SIZE
    case Rom => romSize
  }

  /** A bank-table entry points at a whole 8-KiB bank inside a buffer of
      length `len`; the 2-KiB backup RAM is the one buffer mapped as a short
      bank, which starts inside the buffer and runs past its end. */
  predicate BankFits(e: Ptr, len: nat)
  {
    0 <= e.offset &&
    (e.offset + BANK_SIZE <= len || (e.region == BackupRam && e.offset < len))
  }

  /** The bank tables: every one of the 256 banks, for reads and for writes,
      is a whole bank of some buffer, or a short bank of the backup RAM. */
  predicate TablesFit(mapR: seq<Ptr>, mapW: seq<Ptr>, romSize: nat, extraSize: nat)
  {
    |mapR| == BANK_COUNT && |mapW| == BANK_COUNT &&
    forall v :: 0 <= v < BANK_COUNT ==>
      BankFits(mapR[v], RegionSize(mapR[v].region, romSize, extraSize)) &&
      BankFits(mapW[v], RegionSize(mapW[v].region, romSize, extraSize))
  }

  /** The page cached for slot `p` when its bank's table entry is `e`. */
  function Cache(e: Ptr, p: nat): Ptr
  {
    if e == IOAREA then IOAREA else Ptr(e.region, e.offset - p * BANK_SIZE)
  }

  /** What `page[addr]` touches. */
  function Resolve(page: Ptr, addr: u16): Ptr
  {
    Ptr(page.region, page.offset + addr)
  }

  /** Where an access to `addr` lands when its slot's table entry is `e`,
      computed without the bias: the byte `addr % 0x2000` of the bank, or,
      on the I/O window, the sentinel pointer plus the full address. */
  function Located(e: Ptr, addr: u16): Ptr
  {
    if e == IOAREA then Ptr(NullRam, IOAREA.offset + addr)
    else Ptr(e.region, e.offset + addr % BANK_SIZE)
  }

  /** The bias cancels: indexing the cached page with the full address reaches
      the byte `addr % 0x2000` of the bank, and that byte lies inside the bank.
      It lies inside the buffer too, except past the end of a short
      backup-RAM bank. */
  lemma BiasCancels(e: Ptr, p: nat, addr: u16, len: nat)
    requires BankFits(e, len) && Slot(addr) == p
    ensures Resolve(Cache(e, p), addr) == Located(e, addr)
    ensures e != IOAREA ==> e.offset <= Located(e, addr).offset < e.offset + BANK_SIZE
    ensures e != IOAREA && e.region != BackupRam ==> 0 <= Located(e, addr).offset < len
    ensures e != IOAREA && e.region == BackupRam ==>
              (0 <= Located(e, addr).offset < len <==> addr % BANK_SIZE < len - e.offset)
  {
  }

  /** Routing never mistakes flat memory for the I/O window: given that every
      entry fits its buffer and that `NULLRAM` is 0x2004 bytes long, the cached
      page equals the sentinel exactly when the table entry does. */
  lemma CacheRouting(e: Ptr, p: nat, len: nat)
    requires p < SLOT_COUNT && BankFits(e, len)
    requires e.region == NullRam ==> len == NULLRAM_SIZE
    ensures Cache(e, p) == IOAREA <==> e == IOAREA
  {
  }

  /** The mapper registers: `MMR`, `PageR` and `PageW`, one entry per slot. */
  datatype SlotState = SlotState(mmr: seq<u8>, pageR: seq<Ptr>, pageW: seq<Ptr>)

  predicate WellSized(s: SlotState)
  {
    |s.mmr| == SLOT_COUNT && |s.pageR| == SLOT_COUNT && |s.pageW| == SLOT_COUNT
  }

  /** Every cached page agrees with the selected bank's table entries. */
  predicate Consistent(s: SlotState, mapR: seq<Ptr>, mapW: seq<Ptr>)
    requires |mapR| == BANK_COUNT && |mapW| == BANK_COUNT
  {
    WellSized(s) &&
    forall p :: 0 <= p < SLOT_COUNT ==>
      s.pageR[p] == Cache(mapR[s.mmr[p]], p) && s.pageW[p] == Cache(mapW[s.mmr[p]], p)
  }

  /** The pages cached for a whole bank selection, one per slot. */
  function Pages(banks: seq<u8>, table: seq<Ptr>): (r: seq<Ptr>)
    requires |banks| == SLOT_COUNT && |table| == BANK_COUNT
    ensures |r| == SLOT_COUNT
  {
    seq(SLOT_COUNT, p requires 0 <= p < SLOT_COUNT => Cache(table[banks[p]], p))
  }

  /** Caching every slot's selected bank gives consistent pages. */
  lemma PagesConsistent(banks: seq<u8>, mapR: seq<Ptr>, mapW: seq<Ptr>)
    requires |banks| == SLOT_COUNT && |mapR| == BANK_COUNT && |mapW| == BANK_COUNT
    ensures Consistent(SlotState(banks, Pages(banks, mapR), Pages(banks, mapW)), mapR, mapW)
  {
  }

  /** `pce_bank_set(P, V)` on the mapper registers. */
  function SetBank(s: SlotState, mapR: seq<Ptr>, mapW: seq<Ptr>, p: nat, v: u8): (r: SlotState)
    requires WellSized(s) && |mapR| == BANK_COUNT && |mapW| == BANK_COUNT && p < SLOT_COUNT
    ensures WellSized(r)
    ensures r.mmr[p] == v
    ensures mapR[v] == IOAREA ==> r.pageR[p] == IOAREA
    ensures mapW[v] == IOAREA ==> r.pageW[p] == IOAREA
    ensures mapR[v] != IOAREA ==>
              r.pageR[p].region == mapR[v].region && r.pageR[p].offset + p * BANK_SIZE == mapR[v].offset
    ensures mapW[v] != IOAREA ==>
              r.pageW[p].region == mapW[v].region && r.pageW[p].offset + p * BANK_SIZE == mapW[v].offset
    ensures forall q :: 0 <= q < SLOT_COUNT && q != p ==>
              r.mmr[q] == s.mmr[q] && r.pageR[q] == s.pageR[q] && r.pageW[q] == s.pageW[q]
  {
    SlotState(s.mmr[p := v], s.pageR[p := Cache(mapR[v], p)], s.pageW[p := Cache(mapW[v], p)])
  }

  /** Switching a bank keeps every slot consistent with the tables. */
  lemma SetBankConsistent(s: SlotState, mapR: seq<Ptr>, mapW: seq<Ptr>, p: nat, v: u8)
    requires |mapR| == BANK_COUNT && |mapW| == BANK_COUNT && p < SLOT_COUNT
    requires Consistent(s, mapR, mapW)
    ensures Consistent(SetBank(s, mapR, mapW, p, v), mapR, mapW)
  {
  }

  /** Selecting the same bank twice is the same as selecting it once. */
  lemma SetBankIdempotent(s: SlotState, mapR: seq<Ptr>, mapW: seq<Ptr>, p: nat, v: u8)
    requires WellSized(s) && |mapR| == BANK_COUNT && |mapW| == BANK_COUNT && p < SLOT_COUNT
    ensures SetBank(SetBank(s, mapR, mapW, p, v), mapR, mapW, p, v) == SetBank(s, mapR, mapW, p, v)
  {
  }

  /** Of two selections in one slot only the last one matters. */
  lemma SetBankLastWins(s: SlotState, mapR: seq<Ptr>, mapW: seq<Ptr>, p: nat, v: u8, w: u8)
    requires WellSized(s) && |mapR| == BANK_COUNT && |mapW| == BANK_COUNT && p < SLOT_COUNT
    ensures SetBank(SetBank(s, mapR, mapW, p, v), mapR, mapW, p, w) == SetBank(s, mapR, mapW, p, w)
  {
  }

  /** Selections in different slots do not interfere. */
  lemma SetBankCommutes(s: SlotState, mapR: seq<Ptr>, mapW: seq<Ptr>, p: nat, v: u8, q: nat, w: u8)
    requires WellSized(s) && |mapR| == BANK_COUNT && |mapW| == BANK_COUNT
    requires p < SLOT_COUNT && q < SLOT_COUNT && p != q
    ensures SetBank(SetBank(s, mapR, mapW, p, v), mapR, mapW, q, w)
         == SetBank(SetBank(s, mapR, mapW, q, w), mapR, mapW, p, v)
  {
  }

  /** The result of `pce_read8`: either the value `IO_read(addr)` returns
      (the peripheral dispatcher, not part of this model), or a memory byte. */
  datatype BusRead = IoRead(addr: u16) | Byte(value: u8)

  /** The machine-wide memory state of `PCE_t` together with the global
      tables `PageR`, `PageW`, `MemoryMapR` and `MemoryMapW`. */
  class Machine {
    var ram: array<u8>
    var extraRam: array<u8>
    var backupRam: array<u8>
    var vram: array<u8>
    var rom: array<u8>
    var nullRam: array<u8>

    var mmr: array<u8>
    var pageR: array<Ptr>
    var pageW: array<Ptr>
    var memoryMapR: array<Ptr>
    var memoryMapW: array<Ptr>

    /** The buffer a region names. */
    function Buf(r: Region): array<u8>
      reads this
    {
      match r
      case Ram => ram
      case BackupRam => backupRam
      case ExtraRam => extraRam
      case Vram => vram
      case NullRam => nullRam
      case Rom => rom
    }

    ghost function Regions(): set<object>
      reads this
    {
      {ram, extraRam, backupRam, vram, rom, nullRam}
    }

    ghost function Slots(): SlotState
      reads this, mmr, pageR, pageW
    {
      SlotState(mmr[..], pageR[..], pageW[..])
    }

    ghost predicate Valid()
      reads this, mmr, pageR, pageW, memoryMapR, memoryMapW
    {
      ram.Length == RAM_SIZE && backupRam.Length == BACKUP_RAM_SIZE &&
      vram.Length == VRAM_SIZE && nullRam.Length == NULLRAM_SIZE &&
      mmr.Length == SLOT_COUNT && pageR.Length == SLOT_COUNT && pageW.Length == SLOT_COUNT &&
      memoryMapR.Length == BANK_COUNT && memoryMapW.Length == BANK_COUNT &&
      // the buffers are distinct objects (the fixed-size ones differ in length)
      rom !in {ram, extraRam, backupRam, vram, nullRam} &&
      extraRam !in {ram, backupRam, vram, nullRam} &&
      mmr !in Regions() &&
      pageR != pageW && pageR !in {memoryMapR, memoryMapW} && pageW !in {memoryMapR, memoryMapW} &&
      memoryMapR != memoryMapW &&
      TablesFit(memoryMapR[..], memoryMapW[..], rom.Length, extraRam.Length) &&
      Consistent(Slots(), memoryMapR[..], memoryMapW[..])
    }

    /** The read-table entry of the bank selected for `addr`'s slot. */
    ghost function EntryR(addr: u16): Ptr
      reads this, mmr, memoryMapR
      requires mmr.Length == SLOT_COUNT && memoryMapR.Length == BANK_COUNT
    {
      memoryMapR[mmr[Slot(addr)]]
    }

    /** The write-table entry of the bank selected for `addr`'s slot. */
    ghost function EntryW(addr: u16): Ptr
      reads this, mmr, memoryMapW
      requires mmr.Length == SLOT_COUNT && memoryMapW.Length == BANK_COUNT
    {
      memoryMapW[mmr[Slot(addr)]]
    }

    /** A byte access at `q` lies inside `q`'s buffer. */
    ghost predicate ByteFits(q: Ptr)
      reads this
    {
      0 <= q.offset < Buf(q.region).Length
    }

    /** Both bytes of a 16-bit access at `q` lie inside `q`'s buffer. */
    ghost predicate WordFits(q: Ptr)
      reads this
    {
      0 <= q.offset && q.offset + 1 < Buf(q.region).Length
    }

    lemma BufLength(r: Region)
      requires Valid()
      ensures Buf(r).Length == RegionSize(r, rom.Length, extraRam.Length)
    {
    }

    /** What `Valid` gives about one slot: its pages are the cached table
        entries of its bank, those entries fit, and the bias cancels. */
    lemma SlotFacts(addr: u16)
      requires Valid()
      ensures pageR[Slot(addr)] == Cache(EntryR(addr), Slot(addr))
      ensures pageW[Slot(addr)] == Cache(EntryW(addr), Slot(addr))
      ensures BankFits(EntryR(addr), Buf(EntryR(addr).region).Length)
      ensures BankFits(EntryW(addr), Buf(EntryW(addr).region).Length)
      ensures Resolve(pageR[Slot(addr)], addr) == Located(EntryR(addr), addr)
      ensures Resolve(pageW[Slot(addr)], addr) == Located(EntryW(addr), addr)
      ensures pageR[Slot(addr)] == IOAREA <==> EntryR(addr) == IOAREA
      ensures pageW[Slot(addr)] == IOAREA <==> EntryW(addr) == IOAREA
      ensures EntryR(addr) != IOAREA && EntryR(addr).region != BackupRam ==> ByteFits(Located(EntryR(addr), addr))
      ensures EntryW(addr) != IOAREA && EntryW(addr).region != BackupRam ==> ByteFits(Located(EntryW(addr), addr))
    {
    }

    /** Power-on state. The construction of the bank tables and the initial
        bank selection belong to `pce_init`, which is not part of this model;
        they are taken as given here. */
    constructor (romImage: seq<u8>, extraSize: nat, mapR: seq<Ptr>, mapW: seq<Ptr>, banks: seq<u8>)
      requires TablesFit(mapR, mapW, |romImage|, extraSize) && |banks| == SLOT_COUNT
      ensures Valid()
      ensures rom[..] == romImage && extraRam.Length == extraSize
      ensures memoryMapR[..] == mapR && memoryMapW[..] == mapW && mmr[..] == banks
      ensures fresh(ram) && fresh(extraRam) && fresh(backupRam) && fresh(vram) && fresh(rom) && fresh(nullRam)
      ensures fresh(mmr) && fresh(pageR) && fresh(pageW) && fresh(memoryMapR) && fresh(memoryMapW)
    {
      var romArr := NewArray(romImage);
      var mmrArr := NewArray(banks);
      var slotsR, slotsW := Pages(banks, mapR), Pages(banks, mapW);
      PagesConsistent(banks, mapR, mapW);
      var pageRArr := NewArray(slotsR);
      var pageWArr := NewArray(slotsW);
      var mapRArr := NewArray(mapR);
      var mapWArr := NewArray(mapW);
      ram := new u8[RAM_SIZE];
      extraRam := new u8[extraSize];
      backupRam := new u8[BACKUP_RAM_SIZE];
      vram := new u8[VRAM_SIZE];
      rom := romArr;
      nullRam := new u8[NULLRAM_SIZE];
      mmr, pageR, pageW := mmrArr, pageRArr, pageWArr;
      memoryMapR, memoryMapW := mapRArr, mapWArr;
      new;
      assert memoryMapR[..] == mapR && memoryMapW[..] == mapW;
      assert Slots() == SlotState(banks, slotsR, slotsW);
    }

    /** `pce_bank_set(P, V)`: select bank `V` for slot `P` and recache its pages. */
    method BankSet(p: u8, v: u8)
      requires Valid() && p < SLOT_COUNT
      modifies mmr, pageR, pageW
      ensures Valid()
      ensures Slots() == SetBank(old(Slots()), memoryMapR[..], memoryMapW[..], p, v)
    {
      ghost var before := Slots();
      mmr[p] := v;
      pageR[p] := Cache(memoryMapR[v], p);
      pageW[p] := Cache(memoryMapW[v], p);
      assert Slots() == SetBank(before, memoryMapR[..], memoryMapW[..], p, v);
      SetBankConsistent(before, memoryMapR[..], memoryMapW[..], p, v);
    }

    /** `pce_read8(addr)`. Defined when the byte lies in the buffer the page
        points into, which only a short backup-RAM bank can fail. */
    function Read8(addr: u16): (r: BusRead)
      requires Valid()
      requires EntryR(addr) == IOAREA || ByteFits(Located(EntryR(addr), addr))
      reads this, mmr, pageR, pageW, memoryMapR, memoryMapW, Regions()
      ensures r.IoRead? <==> EntryR(addr) == IOAREA
      ensures r.IoRead? ==> r.addr == addr
      ensures r.Byte? ==> var e := EntryR(addr);
                          r.value == Buf(e.region)[e.offset + addr % BANK_SIZE]
    {
      var page := pageR[Slot(addr)];
      SlotFacts(addr);
      if page == IOAREA then IoRead(addr) else Byte(Buf(page.region)[page.offset + addr])
    }

    /** `pce_write8(addr, byte)`. The result tells whether the store went to
        `IO_write(addr, byte)` (not part of this model) instead of memory;
        what `IO_write` then does to the buffers, the bank selection and the
        tables is left open, apart from keeping the invariant. */
    method Write8(addr: u16, b: u8) returns (delegated: bool)
      requires Valid()
      requires EntryW(addr) == IOAREA || ByteFits(Located(EntryW(addr), addr))
      modifies Regions(), mmr, pageR, pageW, memoryMapR, memoryMapW
      ensures Valid()
      ensures delegated <==> old(EntryW(addr)) == IOAREA
      ensures !delegated ==>
                Slots() == old(Slots()) &&
                memoryMapR[..] == old(memoryMapR[..]) && memoryMapW[..] == old(memoryMapW[..])
      ensures !delegated ==> var e := old(EntryW(addr)); forall r :: (Buf(r)[..] ==
                if r == e.region then old(Buf(r)[..])[e.offset + addr % BANK_SIZE := b]
                else old(Buf(r)[..]))
      ensures !delegated && old(EntryR(addr)) == old(EntryW(addr)) ==> Read8(addr) == Byte(b)
    {
      var page := pageW[Slot(addr)];
      SlotFacts(addr);
      if page == IOAREA {
        delegated := true;
      } else {
        delegated := false;
        var buf := Buf(page.region);
        buf[page.offset + addr] := b;
      }
    }

    /** `pce_read16(addr)`: no sentinel check; both bytes come through
        `PageR[addr >> 13]`, low byte first. Defined when both lie in the
        buffer the page points into. */
    function Read16(addr: u16): (w: u16)
      requires Valid()
      requires WordFits(Located(EntryR(addr), addr))
      reads this, mmr, pageR, pageW, memoryMapR, memoryMapW, Regions()
      ensures var q := Located(EntryR(addr), addr);
              FromW(w) == UWord(Buf(q.region)[q.offset], Buf(q.region)[q.offset + 1])
    {
      var page := pageR[Slot(addr)];
      SlotFacts(addr);
      var buf := Buf(page.region);
      UWord(buf[page.offset + addr], buf[page.offset + addr + 1]).W()
    }

    /** `pce_write16(addr, word)` as written in `hard_pce.h` (line 322): no
        sentinel check, and the store goes through `PageR`, not `PageW`. */
    method Write16(addr: u16, word: u16)
      requires Valid()
      requires WordFits(Located(EntryR(addr), addr))
      modifies Regions()
      ensures Valid()
      ensures var q := Located(EntryR(addr), addr); forall r :: (Buf(r)[..] ==
                if r == q.region then old(Buf(r)[..])[q.offset := FromW(word).l][q.offset + 1 := FromW(word).h]
                else old(Buf(r)[..]))
      ensures WordFits(Located(EntryR(addr), addr)) && Read16(addr) == word
    {
      var page := pageR[Slot(addr)];
      SlotFacts(addr);
      var buf := Buf(page.region);
      buf[page.offset + addr] := word % 0x100;
      buf[page.offset + addr + 1] := word / 0x100;
    }

    /** The word store of `hard_pce.h` (line 322) with the store taken
        through `PageW`, as `pce_write8` does (line 305), so that a
        bank the write table sends elsewhere (ROM writes into the sink) is
        protected from word stores as it is from byte stores. */
    method Write16ThroughPageW(addr: u16, word: u16)
      requires Valid()
      requires WordFits(Located(EntryW(addr), addr))
      modifies Regions()
      ensures Valid()
      ensures var q := Located(EntryW(addr), addr); forall r :: (Buf(r)[..] ==
                if r == q.region then old(Buf(r)[..])[q.offset := FromW(word).l][q.offset + 1 := FromW(word).h]
                else old(Buf(r)[..]))
      ensures EntryR(addr) == EntryW(addr) ==> WordFits(Located(EntryR(addr), addr)) && Read16(addr) == word
    {
      var page := pageW[Slot(addr)];
      SlotFacts(addr);
      var buf := Buf(page.region);
      buf[page.offset + addr] := word % 0x100;
      buf[page.offset + addr + 1] := word / 0x100;
    }

    /** Away from the I/O window and from the last byte of a slot, a word
        read is the little-endian pair of the two byte reads. */
    lemma Read16IsBytePair(addr: u16)
      requires Valid()
      requires EntryR(addr) != IOAREA && addr % BANK_SIZE != BANK_SIZE - 1
      requires WordFits(Located(EntryR(addr), addr))
      ensures ByteFits(Located(EntryR(addr), addr)) && ByteFits(Located(EntryR(addr + 1), addr + 1))
      ensures Read8(addr).Byte? && Read8(addr + 1).Byte?
      ensures Read16(addr) == Read8(addr).value + 0x100 * Read8(addr + 1).value
    {
    }

    /** In a whole bank (anything but the backup RAM) every byte access is in
        bounds, and so is every word access that does not start on the
        slot's last byte. */
    lemma WholeBankFits(addr: u16)
      requires Valid() && EntryR(addr) != IOAREA && EntryR(addr).region != BackupRam
      ensures ByteFits(Located(EntryR(addr), addr))
      ensures addr % BANK_SIZE != BANK_SIZE - 1 ==> WordFits(Located(EntryR(addr), addr))
    {
      SlotFacts(addr);
    }

    /** The backup RAM is a short bank: an access to it is in bounds exactly
        when it falls within the 0x800 bytes of the buffer. */
    lemma BackupBankBounds(addr: u16)
      requires Valid() && EntryR(addr).region == BackupRam
      ensures ByteFits(Located(EntryR(addr), addr)) <==> EntryR(addr).offset + addr % BANK_SIZE < BACKUP_RAM_SIZE
      ensures WordFits(Located(EntryR(addr), addr)) <==> EntryR(addr).offset + addr % BANK_SIZE + 1 < BACKUP_RAM_SIZE
    {
      SlotFacts(addr);
    }

    /** A word access on a slot holding the I/O window is defined only in
        slot 0 below its last byte, and then it reads the `NULLRAM` bytes at
        `IOAREA + addr` instead of calling `IO_read`. */
    lemma WordOnIoWindow(addr: u16)
      requires Valid() && EntryR(addr) == IOAREA
      ensures WordFits(Located(EntryR(addr), addr)) <==> addr < BANK_SIZE - 1
      ensures addr < BANK_SIZE - 1 ==>
                WordFits(Located(EntryR(addr), addr)) &&
                FromW(Read16(addr)) == UWord(nullRam[4 + addr], nullRam[5 + addr])
    {
    }

    /** Scenario: a slot whose bank is ROM bank `k` of the identity mapping
        reads byte `k * 0x2000 + addr % 0x2000` of the ROM image. */
    lemma RomBankRead(addr: u16, k: nat)
      requires Valid() && EntryR(addr) == Ptr(Rom, k * BANK_SIZE)
      ensures Read8(addr) == Byte(rom[k * BANK_SIZE + addr % BANK_SIZE])
    {
    }
  }

  /** A fresh array holding `s`. */
  method NewArray<T>(s: seq<T>) returns (a: array<T>)
    ensures fresh(a) && a[..] == s
  {
    a := new T[|s|](i requires 0 <= i < |s| => s[i]);
  }

  /** A byte store to a bank whose write-table entry lies outside ROM (the
      sink, for a ROM bank) leaves the ROM image alone. */
  method ByteStoreSparesProtectedRom(m: Machine, addr: u16, b: u8)
    requires m.Valid()
    requires m.EntryW(addr) != IOAREA && m.EntryW(addr).region != Rom
    requires m.ByteFits(Located(m.EntryW(addr), addr))
    modifies m.Regions(), m.mmr, m.pageR, m.pageW, m.memoryMapR, m.memoryMapW
    ensures m.rom[..] == old(m.rom[..])
  {
    var delegated := m.Write8(addr, b);
    assert m.Buf(Rom)[..] == old(m.Buf(Rom)[..]);
  }

  /** The word store of the source reaches ROM through a bank whose write
      table entry protects it: a byte store to the same address leaves the
      ROM image alone (`ByteStoreSparesProtectedRom`), the word store
      changes it. */
  method WordStoreReachesProtectedRom(m: Machine, addr: u16, word: u16)
    requires m.Valid()
    requires m.EntryR(addr).region == Rom
    requires m.EntryW(addr) != IOAREA && m.EntryW(addr).region != Rom
    requires m.WordFits(Located(m.EntryR(addr), addr))
    requires FromW(word).l != m.rom[Located(m.EntryR(addr), addr).offset]
    modifies m.Regions()
    ensures m.rom[..] != old(m.rom[..])
  {
    ghost var q := Located(m.EntryR(addr), addr);
    ghost var i := q.offset;
    ghost var before := m.rom[i];
    m.Write16(addr, word);
    assert m.Buf(Rom)[..][i] == FromW(word).l;
    assert m.rom[i] != before;
  }
}
