/** Where entries go, when interrupts are taken and what delivering them leaves, in
    the terms of the hardware: bits, vector numbers and register addresses. */
module DeliveryLaws {
  import opened Words
  import opened Memory
  import opened Mmu
  import opened Cpu
  import opened Driver
  import opened Exceptions
  import opened ClockRuns
  import opened TranslationLaws
  import Runs

  // --- vectors -----------------------------------------------------------------------

  /** Entries are eight bytes apart from the vector base on, whichever kind they are. */
  lemma EntryAddresses(c: Core, u: nat, v: nat)
    ensures Enter(c, Interrupt(0)).pc == c.cr[7] && Enter(c, TrapInsn(0)).pc == c.cr[7]
    ensures Enter(c, Interrupt(v)).pc == Wrap(Enter(c, Interrupt(u)).pc + 8 * (v - u))
    ensures Enter(c, TrapInsn(v)).pc == Wrap(Enter(c, TrapInsn(u)).pc + 8 * (v - u))
  {
    hide MarkValid, ExceptionPsr;
    WrapAdd(c.cr[7] + 8 * u, 8 * (v - u));
  }

  /** A data fault goes where vector 3 goes, a fetch fault where vector 2 does. */
  lemma FaultVectors(c: Core, f: Fault)
    ensures Enter(c, PageFault(f)).pc == Enter(c, TrapInsn(if f.code then 2 else 3)).pc
    ensures var base: int := c.cr[7]; Enter(c, PageFault(f)).pc == Wrap(base + if f.code then 16 else 24)
  {
    hide MarkValid, ExceptionPsr, ByteEnable;
  }

  /** Both clock interrupts go where vector 1 goes. */
  lemma InterruptVector(m: Machine, pend: u32)
    ensures SoftTaken(m).core == Enter(m.core, Interrupt(1)) && HardTaken(m, pend).core == Enter(m.core, Interrupt(1))
  {
  }

  /** The side that missed has the address in its fault address register and a page
      fault in its status; the record is taken. */
  lemma FaultReported(m: Machine)
    requires PageFold(m.mmu.cfg.fold)
    ensures var z, b := TakeFault(m).mmu, if m.mmu.fault.code then 0xFFF7_F000 else 0xFFF7_E000;
      Rd32(z, b + 0x10C) == m.mmu.fault.va && Rd32(z, b + 0x108) == 0x0005_0000 &&
      z.fault == m.mmu.fault.(pending := false)
  {
    hide R32, W32, DeliverFault, PageFold;
    var f, s := m.mmu.cfg.fold, m.mmu.mem;
    var b: Frame := if m.mmu.fault.code then 0xFFF7_F000 else 0xFFF7_E000;
    var s1 := W32(f, s, b + 0x10C, m.mmu.fault.va);
    WordRoundTrip(f, s, b + 0x10C, m.mmu.fault.va);
    WordRoundTrip(f, s1, b + 0x108, 0x0005_0000);
    PageWordsApart(f, s1, b + 0x108, b + 0x10C, 0x0005_0000);
  }

  /** What a turn of the driver does with a fault, and with a trap: it enters at the
      trapping instruction, unless the vector is the all-ones one of an instruction the
      emulator lacks, or there are no vectors; that halts it. */
  lemma TurnDelivers(m: Machine)
    ensures m.mmu.fault.pending ==>
      Loop(m).Ran? && Loop(m).m.core == Enter(m.core, PageFault(m.mmu.fault.(pending := false)))
    ensures !m.mmu.fault.pending && Step(m).Trapped? ==>
      var t := Step(m);
      Loop(m) ==
        if t.vector != 0xFFFF_FFFF && t.m.core.cr[7] >= 0xC000_0000
        then Ran(t.m.(core := Enter(t.m.core.(pc := t.tpc), TrapInsn(t.vector))))
        else Halted(t.m, t.vector)
  {
    hide Step, DeliverFault, FaultRegisters;
  }

  // --- gates --------------------------------------------------------------------------

  /** Interrupts enabled in the emulator and the processor, not in a delay slot, no
      fault waiting, no kernel call, and vectors in place. */
  predicate Open(m: Machine) {
    m.clk.irq && m.sysmode && !m.inKcall && !m.core.hasPending && And(m.core.cr[1], 2) == 0 &&
    m.core.cr[7] >= 0xC000_0000 && !m.mmu.fault.pending
  }

  /** The interrupt mask register has this bit. */
  predicate MaskHas(m: Machine, bit: u32) { And(Rd32(m.mmu, 0xE078_0014), bit) != 0 }

  lemma GateBits(m: Machine)
    ensures GateOpen(m) == Open(m)
    ensures Unmasked(m, 0x20) == MaskHas(m, 0x20) && Unmasked(m, 0x40) == MaskHas(m, 0x40)
  {
    hide And, R32;
    OneBit(m.core.cr[1]);
    OneBit(Rd32(m.mmu, 0xE078_0014));
  }

  /** Some pending bit above the level. */
  predicate Above(spl: u32, pend: u32) {
    spl < 31 && And(pend, 0xFFFF_FFFF - (Pow2(spl + 1) - 1)) != 0
  }

  /** A software interrupt is taken exactly when the gate is open, its mask bit is set,
      a bit is pending above the level and a period has passed since the last. */
  lemma SoftTakenIff(m: Machine)
    ensures var (spl, m1) := Peek(m, 0xC001_4064); var pend := Peek(m1, 0xC001_40CC).0;
      SoftAt(m) <==> Open(m) && MaskHas(m, 0x20) && Above(spl, pend) && m.core.count >= m.clk.nextSoft
  {
    hide And, R32, GateOpen, Unmasked, Peek, AboveLevel;
    GateBits(m);
    var (spl, m1) := Peek(m, 0xC001_4064);
    if spl < 31 { AboveLevelMeans(spl, Peek(m1, 0xC001_40CC).0); }
    LevelBound(spl, Peek(m1, 0xC001_40CC).0);
  }

  lemma LevelBound(spl: u32, pend: u32)
    ensures AboveLevel(spl, pend) ==> spl < 31
  {
  }

  /** The clock is taken exactly when no software interrupt is, the gate is open and the
      looks for one raised no fault, its mask bit is set, and the armed deadline has been
      reached, compared through 32-bit wrap-around. */
  lemma HardTakenIff(m: Machine, deadline: nat)
    requires m.clk.tickDiv != 0 && m.clk.deadline == Wrap(deadline)
    requires -0x8000_0000 <= m.core.count / m.clk.tickDiv - deadline < 0x8000_0000
    ensures HardAt(m) <==>
      !SoftAt(m) && Open(m) && !AfterSoft(m).mmu.fault.pending && MaskHas(m, 0x40) &&
      m.clk.armed && m.core.count / m.clk.tickDiv >= deadline
  {
    hide And, R32, Unmasked, SoftFires, AfterSoft, Wrap, Signed;
    Runs.AfterSoftKeeps(m);
    GateBits(AfterSoft(m));
    if !AfterSoft(m).mmu.fault.pending { PendingKept(m); }
    WrapCompare(m.core.count / m.clk.tickDiv, deadline);
  }

  /** Where the tick is paced by the count alone. */
  lemma CountedTakenIff(m: Machine)
    requires m.clk.tickDiv == 0
    ensures HardAt(m) <==>
      !SoftAt(m) && Open(m) && !AfterSoft(m).mmu.fault.pending && MaskHas(m, 0x40) && m.core.count >= m.clk.nextClock
  {
    hide And, R32, Unmasked, SoftFires, AfterSoft;
    Runs.AfterSoftKeeps(m);
    GateBits(AfterSoft(m));
    if !AfterSoft(m).mmu.fault.pending { PendingKept(m); }
  }

  /** Looking for a software interrupt does not take a fault away. */
  lemma PendingKept(m: Machine)
    requires !AfterSoft(m).mmu.fault.pending
    ensures !m.mmu.fault.pending
  {
    hide Peek, R32, Unmasked;
  }

  /** Under the real memory model the looks never raise one. */
  lemma LooksRaiseNothing(m: Machine)
    requires m.mmu.cfg.realmm && !m.mmu.fault.pending
    ensures !AfterSoft(m).mmu.fault.pending
  {
    hide R32, GateOpen, KernelPage, Lookup, Fill, DevLookup, At, Linear;
  }

  /** Delivery names its sources, moves the rate limit on, uses the deadline up. */
  lemma DeliveryCounts(m: Machine, pend: u32)
    ensures var k := SoftTaken(m).clk;
      k == m.clk.(nextSoft := m.core.count + m.clk.softPeriod, softTicks := m.clk.softTicks + 1, irqSource := 0x20)
    ensures var k := HardTaken(m, pend).clk;
      k == m.clk.(nextClock := m.core.count + m.clk.period, armed := false, ticks := m.clk.ticks + 1,
                  irqSource := if pend != 0 then 0x60 else 0x40)
  {
    hide DeliverException;
  }

  /** The clock's own registers, and no other address, set it. */
  lemma ClockRegisters(m: Machine, a: u32, val: u32)
    requires m.sysmode
    ensures DevWrite32(m, a, val).clk ==
      if a == 0xE07E_0004 then m.clk.(deadline := val, armed := true, cmpWrites := m.clk.cmpWrites + 1)
      else if a == 0xE07E_0000 then m.clk.(enabled := val != 0)
      else if a == 0xE078_0018 then m.clk.(irqSource := val)
      else m.clk
    ensures a == 0xE078_0018 ==> DevWrite32(m, a, val).mmu == m.mmu
  {
    hide StoreWord, TcsPoke, W32;
  }
}
