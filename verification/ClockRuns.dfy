/** The clock over every run of the driver loop: one hard-clock interrupt per
    programmed deadline, none early, software interrupts rate-limited, and
    nothing delivered through a closed gate. */
module ClockRuns {
  import opened Words
  import opened Memory
  import opened Mmu
  import opened Cpu
  import opened Driver
  import Runs

  /** A system call answered by the emulator instead of the kernel: it may
      change registers and memory, not the clock or the count. */
  ghost predicate Serviced(m: Machine, m': Machine) {
    && !m.mmu.fault.pending && Step(m).Trapped? && Step(m).vector == 128 && Step(m).m.core.cr[1] < 0x8000_0000
    && m'.clk == Step(m).m.clk && m'.core.count == Step(m).m.core.count
  }

  ghost predicate Turn(ms: seq<Machine>, i: nat)
    requires i + 1 < |ms|
  {
    Loop(ms[i]) == Ran(ms[i + 1]) || Serviced(ms[i], ms[i + 1])
  }

  ghost predicate Turns(ms: seq<Machine>) { forall i: nat :: i + 1 < |ms| ==> Turn(ms, i) }

  predicate SoftAt(m: Machine) { !m.mmu.fault.pending && SoftFires(m) }

  predicate HardAt(m: Machine) { !m.mmu.fault.pending && !SoftFires(m) && HardFires(AfterSoft(m)) }

  // --- what instructions can do to the clock -------------------------------------

  /** Deadlines that may still fire. */
  function Budget(c: Clock): int { c.cmpWrites + 1 - c.ticks - if c.armed then 1 else 0 }

  /** Everything instructions may do: program deadlines, never take ticks. */
  predicate Programs(c: Clock, c': Clock) {
    && c' == c.(deadline := c'.deadline, armed := c'.armed, enabled := c'.enabled,
                irqSource := c'.irqSource, cmpWrites := c'.cmpWrites)
    && Budget(c') >= Budget(c)
  }

  lemma WritePrograms(m: Machine, a: u32, val: u32)
    ensures Programs(m.clk, DevWrite32(m, a, val).clk)
  {
    hide W32, TcsPoke, StoreWord;
  }

  lemma MemOpPrograms(m: Machine, sub: Sub6, d: Reg5, ea: u32)
    requires sub < 0x10
    ensures var e := MemOp(m, sub, d, ea); e.Ok? ==> Programs(m.clk, e.m.clk)
  {
    hide Translate, R32, R16, R8, W32, W16, W8, SignExtend8, SignExtend16, TcsPoke, DevWrite32;
    if sub < 0x0C {
      var a := Translate(Sync(m).(xlatWrite := Writes(sub)), m.tlb, ea, false);
      var m1 := m.(mmu := a.v.(xlatWrite := false), tlb := a.t);
      var v := Rr(m.core, d);
      WritePrograms(m1, a.pa, v);
      if sub == 0x08 && d < 31 { WritePrograms(DevWrite32(m1, a.pa, v), Wrap(a.pa + 4), Rr(m.core, d + 1)); }
    }
  }

  lemma ExecutePrograms(m: Machine, w: u32)
    ensures var e := Execute(m, w);
      && (e.Ok? ==> Programs(m.clk, e.m.clk) && e.m.core.count == m.core.count)
      && (e.Trap? ==> e.m == m)
  {
    hide AluImm, AluTriadic, Field, OpOf, DOf, S1Of, S2Of, ImmOf, SubOf, VarOf, CtlSubOf, CrOf, MemOp;
    hide CondTrue, Disp16, Disp26, HighBit, Bit, RteTarget, FpOp, Programs;
    ProgramsSelf(m.clk);
    var a, b := Rr(m.core, S1Of(w)), Rr(m.core, S2Of(w));
    if OpOf(w) < 0x10 {
      MemOpPrograms(m, OpOf(w), DOf(w), Wrap(a + ImmOf(w)));
      Runs.MemOpKeepsSlot(m, OpOf(w), DOf(w), Wrap(a + ImmOf(w)));
      NoMemTrap(m, OpOf(w), DOf(w), Wrap(a + ImmOf(w)));
    } else if OpOf(w) == 0x3D && SubOf(w) < 0x10 {
      var ea := Wrap(a + if VarOf(w) >= 0x10 then Wrap(b * SCALE[SubOf(w)]) else b);
      MemOpPrograms(m, SubOf(w), DOf(w), ea);
      Runs.MemOpKeepsSlot(m, SubOf(w), DOf(w), ea);
      NoMemTrap(m, SubOf(w), DOf(w), ea);
    }
  }

  lemma ProgramsSelf(c: Clock)
    ensures Programs(c, c)
  {
  }

  lemma NoMemTrap(m: Machine, sub: Sub6, d: Reg5, ea: u32)
    requires sub < 0x10
    ensures !MemOp(m, sub, d, ea).Trap?
  {
    hide Translate, Transfer;
  }

  lemma InstructionPrograms(m: Machine)
    ensures var o := Instruction(m);
      o.Done? || o.Trapped? ==> Programs(m.clk, o.m.clk) && o.m.core.count >= m.core.count
  {
    hide Execute, Translate, R32;
    ExecutePrograms(Issued(m), FetchedWord(m));
  }

  // --- one turn -------------------------------------------------------------------

  lemma PeekKeeps(m: Machine, va: u32)
    ensures var n := Peek(m, va).1; n.core == m.core && n.clk == m.clk
  {
    hide Translate, R32;
  }

  /** What a turn at m may do to the clock. */
  predicate Advances(m: Machine, k: Clock) {
    && k.tickDiv == m.clk.tickDiv && k.softPeriod == m.clk.softPeriod && Budget(k) >= Budget(m.clk)
    && k.ticks == m.clk.ticks + (if HardAt(m) then 1 else 0)
    && k.nextSoft == (if SoftAt(m) then m.core.count + m.clk.softPeriod else m.clk.nextSoft)
  }

  lemma StepClock(m: Machine)
    requires m.clk.tickDiv != 0 && !m.mmu.fault.pending && !Step(m).Crashed?
    ensures Advances(m, Step(m).m.clk)
  {
    hide Instruction, SoftFires, Unmasked, GateOpen, TimerNow, Signed, AfterSoft, DeliverException, Peek;
    Runs.AfterSoftKeeps(m);
    InstructionPrograms(AfterSoft(m));
    PeekKeeps(AfterSoft(m), SOFTINT_PENDING);
  }

  /** Every turn: a hard tick takes one armed deadline, a soft tick moves the
      limit on, and anything else only programs. */
  lemma TurnClock(ms: seq<Machine>, i: nat)
    requires i + 1 < |ms| && Turn(ms, i) && ms[i].clk.tickDiv != 0
    ensures Advances(ms[i], ms[i + 1].clk)
  {
    hide Step, SoftFires, HardFires, FaultRegisters, DeliverFault, DeliverTrap, Budget;
    if !ms[i].mmu.fault.pending { StepClock(ms[i]); }
  }

  // --- whole runs -------------------------------------------------------------------

  /** Hard-clock deliveries among the first n turns. */
  function HardCount(ms: seq<Machine>, n: nat): nat
    requires n <= |ms|
  {
    if n == 0 then 0 else HardCount(ms, n - 1) + if HardAt(ms[n - 1]) then 1 else 0
  }

  /** The latch and counters as they are at reset. */
  predicate Reset(c: Clock) { c.tickDiv != 0 && c.ticks == 0 && c.cmpWrites == 0 && c.armed }

  /** Deliveries never outnumber stores to the compare register by more than the
      one deadline armed at reset. */
  lemma {:induction false} HardClockBound(ms: seq<Machine>, n: nat)
    requires Turns(ms) && n < |ms| && Reset(ms[0].clk)
    ensures HardCount(ms, n) == ms[n].clk.ticks <= ms[n].clk.cmpWrites + 1
    ensures ms[n].clk.tickDiv != 0 && Budget(ms[n].clk) >= 0 && ms[n].clk.softPeriod == ms[0].clk.softPeriod
    decreases n
  {
    hide Turn, HardAt;
    if n == 0 {
    } else {
      HardClockBound(ms, n - 1);
      assert Turn(ms, n - 1);
      TurnClock(ms, n - 1);
    }
  }

  /** So wherever a number of turns from reset ends. */
  lemma LapsClock(m: Machine, limit: nat)
    requires Reset(m.clk) && Laps(m, limit).Ran?
    ensures Laps(m, limit).m.clk.ticks <= Laps(m, limit).m.clk.cmpWrites + 1
  {
    hide Loop, Laps, Runs.LapStates;
    Runs.LapsTrace(m, limit);
    var ms := Runs.LapStates(m, limit);
    forall i: nat | i + 1 < |ms| ensures Turn(ms, i) { assert Runs.LoopStep(ms, i); }
    HardClockBound(ms, limit);
  }

  /** A programmed deadline D is compared through 32-bit wrap-around; as long as
      it is less than 2^31 away, no interrupt comes before it. */
  lemma NoEarlyTick(m: Machine, deadline: nat)
    requires HardAt(m) && m.clk.tickDiv != 0 && m.clk.deadline == Wrap(deadline)
    requires -0x8000_0000 <= m.core.count / m.clk.tickDiv - deadline < 0x8000_0000
    ensures m.core.count / m.clk.tickDiv >= deadline && m.clk.armed
  {
    hide GateOpen, Unmasked, SoftFires, AfterSoft, Wrap, Signed;
    Runs.AfterSoftKeeps(m);
    WrapCompare(m.core.count / m.clk.tickDiv, deadline);
  }

  lemma WrapCompare(now: nat, d: nat)
    requires -0x8000_0000 <= now - d < 0x8000_0000
    ensures Signed(Wrap(Wrap(now) - Wrap(d))) == now - d
  {
    var p, q := now / TWO32, d / TWO32;
    assert Wrap(now) - Wrap(d) == now - d - TWO32 * (p - q);
    assert Wrap(Wrap(now) - Wrap(d)) == Wrap(now - d);
  }

  lemma {:induction false} SoftLimitKeeps(ms: seq<Machine>, i: nat, j: nat)
    requires Turns(ms) && i < j < |ms| && Reset(ms[0].clk) && SoftAt(ms[i])
    ensures ms[j].clk.nextSoft >= ms[i].core.count + ms[0].clk.softPeriod
    decreases j
  {
    hide Turn, SoftAt, HardAt;
    HardClockBound(ms, j - 1);
    assert Turn(ms, j - 1);
    TurnClock(ms, j - 1);
    if i < j - 1 {
      SoftLimitKeeps(ms, i, j - 1);
      if SoftAt(ms[j - 1]) { SoftRespectsLimit(ms[j - 1]); }
    }
  }

  lemma SoftRespectsLimit(m: Machine)
    requires SoftAt(m)
    ensures m.core.count >= m.clk.nextSoft
  {
    hide SoftPeek, SoftLooks;
  }

  /** Two software interrupts are at least a period apart. */
  lemma SoftSpacing(ms: seq<Machine>, i: nat, j: nat)
    requires Turns(ms) && i < j < |ms| && Reset(ms[0].clk) && SoftAt(ms[i]) && SoftAt(ms[j])
    ensures ms[j].core.count >= ms[i].core.count + ms[0].clk.softPeriod
  {
    SoftLimitKeeps(ms, i, j);
    SoftRespectsLimit(ms[j]);
  }

  /** Nothing is delivered with interrupts disabled, in a delay slot, inside a
      kernel call or over a pending fault; a software interrupt has a pending
      bit above the level it interrupts; and delivery shuts the gate behind it. */
  lemma GatedDelivery(ms: seq<Machine>, i: nat)
    requires i + 1 < |ms| && Loop(ms[i]) == Ran(ms[i + 1]) && (SoftAt(ms[i]) || HardAt(ms[i]))
    ensures var m := ms[i];
      && !IntsDisabled(m.core.cr[1]) && !m.core.hasPending && !m.inKcall && !m.mmu.fault.pending
      && (HardAt(m) ==> !AfterSoft(m).mmu.fault.pending)
      && (SoftAt(m) ==> AboveLevel(SoftPeek(m).0, SoftPeek(m).1))
    ensures !GateOpen(ms[i + 1])
  {
    hide Translate, R32, Unmasked, HardDue, AboveLevel, SoftPeek, Pow2;
    var m := ms[i];
    Runs.AfterSoftKeeps(m);
    PeekKeeps(AfterSoft(m), SOFTINT_PENDING);
    EntryDisables(m.core);
  }

  lemma EntryDisables(c: Core)
    ensures IntsDisabled(DeliverException(c, 1).cr[1])
  {
    hide Or, MarkValid;
    var p := c.cr[1];
    OrBit(p, 0x8000_0003, 1);
    assert Pow2(1) == 2;
    assert Bit(0x8000_0003, 1);
  }

  /** The level test is the ISR's own: `pend & ~((2 << spl) - 1)` is not zero. */
  lemma AboveLevelMeans(spl: u32, pend: u32)
    requires spl < 31
    ensures Pow2(spl + 1) - 1 < TWO32
    ensures AboveLevel(spl, pend) <==> And(pend, Not32(Pow2(spl + 1) - 1)) != 0
  {
    hide And;
    var p := Pow2(spl + 1);
    Pow2Mono(spl + 1, 32);
    Pow32();
    AndNot32(pend, p - 1);
    AndHigh(pend, spl + 1);
    if pend < p { DivModUnique(pend, p, 0, pend); }
  }
}
