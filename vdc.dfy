/** The video display controller (VDC) register helpers of the hardware core:
    the auto-increment of a register, the status-bit test, the display
    bounds derived from the timing registers and the interrupt-enable bits. */
module Vdc {
  import opened Word

  /** Register numbers (`vdc_reg_t`) used by the helpers. */
  const CR := 5     // control register
  const HDR := 11   // horizontal definition
  const VPR := 12   // high byte: VDS, low byte: VSW
  const VDW := 13   // vertical display width
  const DCR := 15   // DMA control register

  const VDC_REG_COUNT := 32

  /** The 32 registers of `io.VDC`. */
  type Regs = s: seq<UWord> | |s| == VDC_REG_COUNT witness seq(VDC_REG_COUNT, _ => UWord(0, 0))

  /** The bits of `vdc_status` (`vdc_stat_t`). */
  datatype StatusFlag =
    | Collision    // VDC_STAT_CR, bit 0
    | Overflow     // VDC_STAT_OR, bit 1
    | RasterHit    // VDC_STAT_RR, bit 2
    | SatbDone     // VDC_STAT_DS, bit 3
    | VramDmaDone  // VDC_STAT_DV, bit 4
    | VBlank       // VDC_STAT_VD, bit 5
    | Busy         // VDC_STAT_BSY, bit 6
  {
    /** The flag's value as a bit mask: 2 to the power of its bit number. */
    function Mask(): (m: nat)
      ensures m > 0
    {
      match this
      case Collision => 0x01
      case Overflow => 0x02
      case RasterHit => 0x04
      case SatbDone => 0x08
      case VramDmaDone => 0x10
      case VBlank => 0x20
      case Busy => 0x40
    }
  }

  /** `IO_VDC_STATUS(bit)`: `(vdc_status >> bit) & 1`. The result is 0 or 1,
      and it is 1 exactly when the flag's bit is set, that is, when the bits
      of `status` up to and including it weigh at least the flag's mask. */
  function Status(status: u8, flag: StatusFlag): (r: int)
    ensures r == 0 || r == 1
    ensures r == 1 <==> status % (2 * flag.Mask()) >= flag.Mask()
  {
    BitTest(status, flag.Mask());
    (status / flag.Mask()) % 2
  }

  /** The enable bits tested by `SATBIntON` .. `ScreenON`. */
  datatype Enable =
    | SatbInt   // SATBIntON: DCR bit 0
    | DmaInt    // DMAIntON:  DCR bit 1
    | SpHit     // SpHitON:   CR bit 0
    | Over      // OverON:    CR bit 1
    | RasHit    // RasHitON:  CR bit 2
    | VBlankInt // VBlankON:  CR bit 3
    | Sprite    // SpriteON:  CR bit 6
    | Screen    // ScreenON:  CR bit 7
  {
    function Reg(): nat
    {
      match this
      case SatbInt => DCR
      case DmaInt => DCR
      case _ => CR
    }

    function Mask(): (m: nat)
      ensures m > 0
    {
      match this
      case SatbInt => 0x01
      case DmaInt => 0x02
      case SpHit => 0x01
      case Over => 0x02
      case RasHit => 0x04
      case VBlankInt => 0x08
      case Sprite => 0x40
      case Screen => 0x80
    }
  }

  /** The enable macros: `IO_VDC_REG[reg].W & mask`. The result is 0 or the
      mask itself, non-zero exactly when the bit is set. */
  function Enabled(regs: Regs, e: Enable): (r: int)
    ensures r == 0 || r == e.Mask()
    ensures r != 0 <==> regs[e.Reg()].W() % (2 * e.Mask()) >= e.Mask()
  {
    var w, m := regs[e.Reg()].W(), e.Mask();
    BitTest(w, m);
    (w / m) % 2 * m
  }

  /** `IO_VDC_MINLINE`: VDS + VSW, the high and low bytes of VPR added as
      `int`, so without 8-bit wrap-around. */
  function MinLine(regs: Regs): (r: int)
    ensures r == regs[VPR].W() / 0x100 + regs[VPR].W() % 0x100
    ensures 0 <= r <= 2 * 0xFF
  {
    regs[VPR].h + regs[VPR].l
  }

  /** `IO_VDC_SCREEN_HEIGHT`: VDW + 1, as `int`. */
  function ScreenHeight(regs: Regs): (r: int)
    ensures 1 <= r <= WORD_MODULUS
  {
    regs[VDW].W() + 1
  }

  /** `IO_VDC_MAXLINE`: MINLINE + VDW. The window from MINLINE to MAXLINE
      holds exactly SCREEN_HEIGHT lines and never lies below MINLINE. */
  function MaxLine(regs: Regs): (r: int)
    ensures MinLine(regs) <= r <= MinLine(regs) + 0xFFFF
    ensures r - MinLine(regs) + 1 == ScreenHeight(regs)
  {
    MinLine(regs) + regs[VDW].W()
  }

  /** `IO_VDC_SCREEN_WIDTH`: (HDR.l + 1) * 8, a whole number of 8-pixel
      tiles, one more than the low byte of the HDR word. */
  function ScreenWidth(regs: Regs): (r: int)
    ensures r % 8 == 0 && 8 <= r <= 0x100 * 8
    ensures r / 8 - 1 == regs[HDR].W() % 0x100
  {
    (regs[HDR].l + 1) * 8
  }

  /** The step table of `IO_VDC_REG_INC`, indexed by bits 11-12 of CR. The
      macro computes the index as `(CR.W >> 11) & 3`; this reads it from the
      high byte, and the contract speaks of the word. */
  function IncStep(cr: UWord): (s: nat)
    ensures (cr.W() / 0x800) % 4 == 0 ==> s == 1
    ensures (cr.W() / 0x800) % 4 == 1 ==> s == 32
    ensures (cr.W() / 0x800) % 4 == 2 ==> s == 64
    ensures (cr.W() / 0x800) % 4 == 3 ==> s == 128
  {
    [1, 32, 64, 128][(cr.h / 8) % 4]
  }

  /** The register file after `IO_VDC_REG_INC(reg)`: register `reg` has
      advanced by the step CR selects, modulo 2^16, and no other register
      has changed. */
  function Incremented(regs: Regs, reg: nat): (r: Regs)
    requires reg < VDC_REG_COUNT
    ensures r[reg].W() == (regs[reg].W() + IncStep(regs[CR])) % WORD_MODULUS
    ensures forall i :: 0 <= i < VDC_REG_COUNT && i != reg ==> r[i] == regs[i]
  {
    regs[reg := FromW(AddWrap(regs[reg].W(), IncStep(regs[CR])))]
  }

  /** `n` successive increments of one register. */
  function IncrementedTimes(regs: Regs, reg: nat, n: nat): Regs
    requires reg < VDC_REG_COUNT
  {
    if n == 0 then regs else Incremented(IncrementedTimes(regs, reg, n - 1), reg)
  }

  /** Repeated increments of `reg` touch no other register. */
  lemma {:induction false} IncrementedTimesFrame(regs: Regs, reg: nat, n: nat)
    requires reg < VDC_REG_COUNT
    ensures forall i :: 0 <= i < VDC_REG_COUNT && i != reg ==> IncrementedTimes(regs, reg, n)[i] == regs[i]
  {
    if n > 0 {
      IncrementedTimesFrame(regs, reg, n - 1);
    }
  }

  /** `n` additions of `step` to a 16-bit word, each wrapping at 2^16. */
  function Stepped(w: u16, step: nat, n: nat): u16
  {
    if n == 0 then w else AddWrap(Stepped(w, step, n - 1), step)
  }

  /** With CR left alone, each increment adds the same step: `n` increments
      are `n` wrapped additions of it. */
  lemma {:induction false} IncrementedTimesSteps(regs: Regs, reg: nat, n: nat)
    requires reg < VDC_REG_COUNT && reg != CR
    ensures IncrementedTimes(regs, reg, n)[reg].W() == Stepped(regs[reg].W(), IncStep(regs[CR]), n)
  {
    if n > 0 {
      var prev := IncrementedTimes(regs, reg, n - 1);
      IncrementedTimesSteps(regs, reg, n - 1);
      assert prev[CR] == regs[CR] by {
        IncrementedTimesFrame(regs, reg, n - 1);
      }
      assert IncrementedTimes(regs, reg, n) == Incremented(prev, reg);
    }
  }

  /** `n` wrapped additions of `step` are one addition of `n * step`, wrapped. */
  lemma {:induction false} SteppedCloses(w: u16, step: nat, n: nat)
    ensures Stepped(w, step, n) == (w + n * step) % WORD_MODULUS
  {
    if n > 0 {
      SteppedCloses(w, step, n - 1);
      NextStep(w, step, n);
    } else {
      assert n * step == 0;
    }
  }

  /** With CR left alone, `n` increments advance the register by `n` times
      the step, modulo 2^16. */
  lemma IncrementedTimesAdvances(regs: Regs, reg: nat, n: nat)
    requires reg < VDC_REG_COUNT && reg != CR
    ensures IncrementedTimes(regs, reg, n)[reg].W()
            == (regs[reg].W() + n * IncStep(regs[CR])) % WORD_MODULUS
  {
    var w, step := regs[reg].W(), IncStep(regs[CR]);
    var after := IncrementedTimes(regs, reg, n)[reg].W();
    assert after == Stepped(w, step, n) by {
      IncrementedTimesSteps(regs, reg, n);
    }
    assert Stepped(w, step, n) == (w + n * step) % WORD_MODULUS by {
      SteppedCloses(w, step, n);
    }
  }

  /** One more step on top of `n - 1` steps, all modulo 2^16. */
  lemma NextStep(w: int, step: int, n: nat)
    requires n > 0
    ensures ((w + (n - 1) * step) % WORD_MODULUS + step) % WORD_MODULUS == (w + n * step) % WORD_MODULUS
  {
    assert w + (n - 1) * step + step == w + n * step;
    AddWrapLeft(w + (n - 1) * step, step);
  }

  /** The VDC register file of `IO_t` (`io.VDC`), which `IO_VDC_REG_INC`
      updates in place. */
  class VdcState {
    var regs: array<UWord>

    ghost predicate Valid()
      reads this
    {
      regs.Length == VDC_REG_COUNT
    }

    /** The register file as a value. */
    ghost function Regs(): Regs
      reads this, regs
      requires Valid()
    {
      regs[..]
    }

    constructor ()
      ensures Valid() && fresh(regs)
      ensures Regs() == seq(VDC_REG_COUNT, _ => UWord(0, 0))
    {
      regs := new UWord[VDC_REG_COUNT](_ => UWord(0, 0));
    }

    /** `IO_VDC_REG_INC(reg)`. */
    method RegInc(reg: nat)
      requires Valid() && reg < VDC_REG_COUNT
      modifies regs
      ensures Valid()
      ensures Regs() == Incremented(old(Regs()), reg)
    {
      regs[reg] := FromW(AddWrap(regs[reg].W(), IncStep(regs[CR])));
    }
  }
}
