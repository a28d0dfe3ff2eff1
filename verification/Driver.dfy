/** Exception entry, the interrupt gates in front of each instruction, and one
    turn of the system-mode driver loop. */
module Driver {
  import opened Words
  import opened Memory
  import opened Mmu
  import opened Cpu

  const SPL_LEVEL: u32 := 0xC001_4064
  const SOFTINT_PENDING: u32 := 0xC001_40CC
  const IRQ_MASK: u32 := 0xE078_0014
  const IRQ_SOFTINT: u32 := 0x20
  const IRQ_HARDCLOCK: u32 := 0x40

  // --- exception entry ----------------------------------------------------------

  /** The address with its pipeline-valid bit (bit 1) set. */
  function MarkValid(x: u32): u32 { if x / 2 % 2 == 1 then x else x + 2 }

  /** Supervisor, interrupts disabled, shadow registers frozen. */
  function ExceptionPsr(psr: u32): u32 { Or32(psr, 0x8000_0003) }

  predicate IntsDisabled(psr: u32) { psr / 2 % 2 == 1 }

  /** Save PSR and the three pipeline registers, enter the exception state and
      vector through VBR. */
  function Vectored(c: Core, xip: u32, nip: u32, fip: u32, vector: nat): Core {
    c.(cr := c.cr[2 := c.cr[1]][4 := xip][5 := MarkValid(nip)][6 := MarkValid(fip)][1 := ExceptionPsr(c.cr[1])],
       pc := Wrap(c.cr[7] + vector * 8))
  }

  function ClearDataPipe(c: Core): Core { c.(cr := c.cr[8 := 0][11 := 0][14 := 0]) }

  function DeliverException(c: Core, vector: nat): Core {
    Vectored(ClearDataPipe(c), c.pc, c.pc, Wrap(c.pc + 4), vector)
  }

  function DeliverTrap(c: Core, vector: nat, tpc: u32): Core {
    Vectored(c, tpc, Wrap(tpc + 4), Wrap(tpc + 8), vector).(hasPending := false)
  }

  function ByteEnable(width: int, va: u32): (lanes: u32)
    ensures lanes <= 0x3C
  {
    if width == 1 then [0x20, 0x10, 0x08, 0x04][va % 4]
    else if width == 2 then (if va / 2 % 2 == 1 then 0x0C else 0x30)
    else 0x3C
  }

  /** The data pipeline describes exactly one outstanding access. */
  function DataPipe(c: Core, f: Fault): Core {
    if f.code then ClearDataPipe(c)
    else
      var d := ClearDataPipe(c);
      d.(cr := d.cr[8 := 1 + (if f.write then 2 else 0) + ByteEnable(f.width, f.va)][9 := 0][10 := f.va])
  }

  function DeliverFault(c: Core, f: Fault): Core {
    Vectored(DataPipe(c, f), c.pc, c.pc, Wrap(c.pc + 4), if f.code then 2 else 3).(hasPending := false)
  }

  /** Fault status and address registers of the side that missed. */
  function FaultRegisters(v: View, f: Fault): View {
    var base := if f.code then CODE_CMMU else DATA_CMMU;
    v.(mem := W32(v.cfg.fold, W32(v.cfg.fold, v.mem, base + PFAR, f.va), base + PFSR, 0x5_0000))
  }

  /** Return from exception: PSR from EPSR, and on to the first valid pipeline
      register, or in a delay slot to the pending branch. */
  function Rte(c: Core): Core { Sequence(c.(cr := c.cr[1 := c.cr[2]]), Jump(RteTarget(c.cr), false)) }

  // --- interrupt gates ------------------------------------------------------------

  /** The timer where it is paced: instructions to a tick. */
  function TimerNow(m: Machine): u32
    requires m.clk.tickDiv != 0
  {
    Wrap(m.core.count / m.clk.tickDiv)
  }

  /** What both interrupt sources need: enabled, not in a delay slot, not masked
      by the PSR, a vector table, no fault waiting and no kernel call running. */
  predicate GateOpen(m: Machine) {
    m.clk.irq && m.sysmode && !m.core.hasPending && !IntsDisabled(m.core.cr[1]) &&
    m.core.cr[7] >= KOFF && !m.mmu.fault.pending && !m.inKcall
  }

  predicate Unmasked(m: Machine, bit: nat)
    requires bit > 0
  {
    R32(m.mmu.cfg.fold, m.mmu.mem, IRQ_MASK) / bit % 2 == 1
  }

  /** Read a kernel word through translation. */
  function Peek(m: Machine, va: u32): (u32, Machine) {
    var a := Translate(Sync(m), m.tlb, va, false);
    (R32(a.v.cfg.fold, a.v.mem, a.pa), m.(mmu := a.v, tlb := a.t))
  }

  /** A pending software interrupt above the current level. */
  predicate AboveLevel(spl: u32, pend: u32) { spl < 31 && pend >= Pow2(spl + 1) }

  function SoftLooks(m: Machine): bool { GateOpen(m) && Unmasked(m, 0x20) }

  function SoftPeek(m: Machine): (u32, u32, Machine) {
    var (spl, m1) := Peek(m, SPL_LEVEL);
    var (pend, m2) := Peek(m1, SOFTINT_PENDING);
    (spl, pend, m2)
  }

  predicate SoftFires(m: Machine) {
    SoftLooks(m) && var (spl, pend, m2) := SoftPeek(m); AboveLevel(spl, pend) && m.core.count >= m.clk.nextSoft
  }

  /** The state the hard-clock gate sees. */
  function AfterSoft(m: Machine): Machine { if SoftLooks(m) then SoftPeek(m).2 else m }

  function TakeSoft(m: Machine): Machine { SoftTaken(AfterSoft(m)) }

  /** Delivery pushes the rate limit on and names its source. */
  function SoftTaken(m: Machine): Machine {
    m.(clk := SoftClock(m.clk, m.core.count), core := DeliverException(m.core, 1))
  }

  function SoftClock(k: Clock, count: nat): Clock {
    k.(nextSoft := count + k.softPeriod, softTicks := k.softTicks + 1, irqSource := IRQ_SOFTINT)
  }

  predicate HardDue(m: Machine) {
    if m.clk.tickDiv != 0 then m.clk.armed && Signed(Wrap(TimerNow(m) - m.clk.deadline)) >= 0
    else m.core.count >= m.clk.nextClock
  }

  predicate HardFires(m: Machine) { GateOpen(m) && HardDue(m) && Unmasked(m, 0x40) }

  function TakeHard(m: Machine): Machine {
    var (pend, m1) := Peek(m, SOFTINT_PENDING);
    HardTaken(m1, pend)
  }

  /** Delivery uses up the armed deadline and names its source, and a software
      interrupt waiting beside it. */
  function HardTaken(m: Machine, pend: u32): Machine {
    m.(clk := HardClock(m.clk, m.core.count, pend), core := DeliverException(m.core, 1))
  }

  function HardClock(k: Clock, count: nat, pend: u32): Clock {
    k.(nextClock := count + k.period, armed := false, ticks := k.ticks + 1,
       irqSource := if pend != 0 then IRQ_HARDCLOCK + IRQ_SOFTINT else IRQ_HARDCLOCK)
  }

  /** `step`: an interrupt if one is due, else an instruction. */
  function Step(m: Machine): Outcome {
    if SoftFires(m) then Done(TakeSoft(m))
    else
      var m1 := AfterSoft(m);
      if HardFires(m1) then Done(TakeHard(m1)) else Instruction(m1)
  }

  /** A pending page fault is handed to the kernel's own handler. */
  function TakeFault(m: Machine): Machine {
    var v := m.mmu.(fault := m.mmu.fault.(pending := false));
    m.(mmu := FaultRegisters(v, v.fault), core := DeliverFault(m.core, v.fault))
  }

  datatype Turn = Ran(m: Machine) | Halted(m: Machine, vector: u32) | Broken

  /** One turn of the driver loop: fault, else step, else deliver its trap. */
  function Loop(m: Machine): Turn {
    if m.mmu.fault.pending then Ran(TakeFault(m))
    else match Step(m)
      case Done(m') => Ran(m')
      case Crashed => Broken
      case Trapped(m', vector, tpc) =>
        if vector != BAD && m'.core.cr[7] >= KOFF then Ran(m'.(core := DeliverTrap(m'.core, vector, tpc)))
        else Halted(m', vector)
  }

  /** Turns of the driver loop, up to a limit. */
  function Laps(m: Machine, limit: nat): Turn
    decreases limit
  {
    if limit == 0 then Ran(m) else match Loop(m) case Ran(m') => Laps(m', limit - 1) case o => o
  }
}
