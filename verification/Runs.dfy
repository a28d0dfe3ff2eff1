/** Properties of whole runs: delay slots, and the clock. */
module Runs {
  import opened Words
  import opened Memory
  import opened Mmu
  import opened Cpu
  import opened Driver
  import Exceptions

  // --- delay slots --------------------------------------------------------------

  /** Consecutive states of the processor with no fault and no trap. */
  ghost predicate Steps(ms: seq<Machine>) { forall i: nat :: i + 1 < |ms| ==> CleanStep(ms, i) }

  ghost predicate CleanStep(ms: seq<Machine>, i: nat)
    requires i + 1 < |ms|
  {
    Step(ms[i]) == Done(ms[i + 1]) && !ms[i + 1].mmu.fault.pending
  }

  predicate Interrupted(m: Machine) { SoftFires(m) || HardFires(AfterSoft(m)) }

  /** What the instruction at m does to control flow. */
  function BranchOf(m: Machine): Branch {
    match Execute(Issued(AfterSoft(m)), FetchedWord(AfterSoft(m))) case Ok(_, br) => br case _ => Next
  }

  /** Executing an instruction leaves pc and the pending branch for sequencing. */
  lemma ExecuteKeepsSlot(m: Machine, w: u32)
    ensures var e := Execute(m, w);
      e.Ok? ==>
        e.m.core.pc == m.core.pc && e.m.core.pending == m.core.pending && e.m.core.hasPending == m.core.hasPending
  {
    hide AluImm, AluTriadic, Field, OpOf, DOf, S1Of, S2Of, ImmOf, SubOf, VarOf, CtlSubOf, CrOf, MemOp;
    hide CondTrue, Disp16, Disp26, HighBit, Bit, RteTarget, FpOp;
    var a, b := Rr(m.core, S1Of(w)), Rr(m.core, S2Of(w));
    if OpOf(w) < 0x10 {
      MemOpKeepsSlot(m, OpOf(w), DOf(w), Wrap(a + ImmOf(w)));
    } else if OpOf(w) == 0x3D && SubOf(w) < 0x10 {
      MemOpKeepsSlot(m, SubOf(w), DOf(w), Wrap(a + if VarOf(w) >= 0x10 then Wrap(b * SCALE[SubOf(w)]) else b));
    }
  }

  lemma WriteKeepsCore(m: Machine, a: u32, val: u32)
    ensures DevWrite32(m, a, val).core == m.core
  {
    hide W32, TcsPoke, StoreWord;
  }

  lemma MemOpKeepsSlot(m: Machine, sub: Sub6, d: Reg5, ea: u32)
    requires sub < 0x10
    ensures var e := MemOp(m, sub, d, ea);
      e.Ok? ==> e.br == Next && e.m.core == m.core.(r := e.m.core.r)
  {
    hide Translate, R32, R16, R8, W32, W16, W8, SignExtend8, SignExtend16, TcsPoke, DevWrite32;
    if sub < 0x0C {
      var a := Translate(Sync(m).(xlatWrite := Writes(sub)), m.tlb, ea, false);
      var m1 := m.(mmu := a.v.(xlatWrite := false), tlb := a.t);
      var v := Rr(m.core, d);
      WriteKeepsCore(m1, a.pa, v);
      if sub == 0x08 && d < 31 { WriteKeepsCore(DevWrite32(m1, a.pa, v), Wrap(a.pa + 4), Rr(m.core, d + 1)); }
    }
  }

  lemma AfterSoftKeeps(m: Machine)
    ensures var n := AfterSoft(m);
      n.core == m.core && n.clk == m.clk && n.inKcall == m.inKcall && n.sysmode == m.sysmode &&
      n.mmu.mem == m.mmu.mem && n.mmu.cfg == m.mmu.cfg
  {
    hide Translate, R32, GateOpen;
    if SoftLooks(m) {
      Exceptions.TranslateKeeps(Sync(m), m.tlb, SPL_LEVEL, false);
      var m1 := Peek(m, SPL_LEVEL).1;
      Exceptions.TranslateKeeps(Sync(m1), m1.tlb, SOFTINT_PENDING, false);
    }
  }

  /** One uninterrupted step, as sequencing sees it. */
  lemma StepSequences(m: Machine, m': Machine)
    requires Step(m) == Done(m') && !m'.mmu.fault.pending && !Interrupted(m)
    ensures m'.core.pc == Sequence(m.core, BranchOf(m)).pc
    ensures m'.core.pending == Sequence(m.core, BranchOf(m)).pending
    ensures m'.core.hasPending == Sequence(m.core, BranchOf(m)).hasPending
  {
    hide Execute, Translate, R32, SoftFires, HardFires, AfterSoft;
    AfterSoftKeeps(m);
    var n := AfterSoft(m);
    ExecuteKeepsSlot(Issued(n), FetchedWord(n));
  }

  /** In a delay slot nothing is interrupted. */
  lemma SlotUninterrupted(m: Machine)
    requires m.core.hasPending
    ensures !Interrupted(m)
  {
    hide SoftPeek, Unmasked, HardDue;
  }

  /** A taken delayed branch runs exactly the next instruction and then its
      target, whatever the slot holds. */
  lemma DelayedBranch(ms: seq<Machine>, i: nat)
    requires Steps(ms) && i + 2 < |ms| && !ms[i].core.hasPending && !Interrupted(ms[i])
    requires BranchOf(ms[i]).Jump? && BranchOf(ms[i]).delayed
    ensures ms[i + 1].core.pc == Wrap(ms[i].core.pc + 4)
    ensures ms[i + 2].core.pc == BranchOf(ms[i]).target && !ms[i + 2].core.hasPending
  {
    hide Step, BranchOf, Interrupted;
    assert CleanStep(ms, i) && CleanStep(ms, i + 1);
    StepSequences(ms[i], ms[i + 1]);
    SlotUninterrupted(ms[i + 1]);
    StepSequences(ms[i + 1], ms[i + 2]);
  }

  /** A taken plain branch goes straight to its target; an untaken one, delayed
      or not, falls through; neither leaves a branch pending. */
  lemma PlainBranch(ms: seq<Machine>, i: nat)
    requires Steps(ms) && i + 1 < |ms| && !ms[i].core.hasPending && !Interrupted(ms[i])
    requires BranchOf(ms[i]).Next? || !BranchOf(ms[i]).delayed
    ensures !ms[i + 1].core.hasPending
    ensures ms[i + 1].core.pc == if BranchOf(ms[i]).Next? then Wrap(ms[i].core.pc + 4) else BranchOf(ms[i]).target
  {
    hide Step, BranchOf, Interrupted;
    assert CleanStep(ms, i);
    StepSequences(ms[i], ms[i + 1]);
  }

  /** No branch stays pending after its slot. */
  lemma SlotEndsPending(ms: seq<Machine>, i: nat)
    requires Steps(ms) && i + 1 < |ms| && ms[i].core.hasPending
    ensures !ms[i + 1].core.hasPending && ms[i + 1].core.pc == ms[i].core.pending
  {
    hide Step, BranchOf, Interrupted;
    assert CleanStep(ms, i);
    SlotUninterrupted(ms[i]);
    StepSequences(ms[i], ms[i + 1]);
  }

  predicate WordAligned(c: Core) { c.pc % 4 == 0 && (c.hasPending ==> c.pending % 4 == 0) }

  lemma WrapAligned(a: int, k: int)
    requires a % 4 == 0
    ensures Wrap(a + 4 * k) % 4 == 0
  {
    var x := a + 4 * k;
    var q := x / TWO32;
    assert Wrap(x) == x - TWO32 * q;
  }

  lemma TargetsAligned(m: Machine, w: u32)
    requires m.core.pc % 4 == 0
    ensures var e := Execute(m, w); e.Ok? && e.br.Jump? ==> e.br.target % 4 == 0
  {
    hide AluImm, AluTriadic, Field, OpOf, DOf, S1Of, S2Of, ImmOf, SubOf, VarOf, CtlSubOf, CrOf, MemOp;
    hide CondTrue, Disp16, Disp26, HighBit, Bit, FpOp, Wrap;
    WrapAligned(m.core.pc, Disp26(w));
    WrapAligned(m.core.pc, Disp16(w));
    var a, b := Rr(m.core, S1Of(w)), Rr(m.core, S2Of(w));
    if OpOf(w) < 0x10 {
      MemOpKeepsSlot(m, OpOf(w), DOf(w), Wrap(a + ImmOf(w)));
    } else if OpOf(w) == 0x3D && SubOf(w) < 0x10 {
      MemOpKeepsSlot(m, SubOf(w), DOf(w), Wrap(a + if VarOf(w) >= 0x10 then Wrap(b * SCALE[SubOf(w)]) else b));
    }
  }

  lemma InterruptAligned(m: Machine, m': Machine)
    requires Step(m) == Done(m') && Interrupted(m) && m.core.cr[7] % 4 == 0
    ensures m'.core.pc % 4 == 0 && m'.core.hasPending == m.core.hasPending && m'.core.pending == m.core.pending
  {
    hide Translate, R32, SoftFires, HardFires, Vectored, ClearDataPipe, AfterSoft;
    AfterSoftKeeps(m);
    VectorAligned(m.core);
  }

  lemma VectorAligned(c: Core)
    requires c.cr[7] % 4 == 0
    ensures var d := DeliverException(c, 1); d.pc % 4 == 0 && d.hasPending == c.hasPending && d.pending == c.pending
  {
    hide MarkValid, ExceptionPsr;
    WrapAligned(c.cr[7], 2);
  }

  /** Consecutive states of the driver loop: instructions, interrupts, fault and
      trap deliveries. */
  ghost predicate Loops(ms: seq<Machine>) { forall i: nat :: i + 1 < |ms| ==> LoopStep(ms, i) }

  ghost predicate LoopStep(ms: seq<Machine>, i: nat)
    requires i + 1 < |ms|
  {
    Loop(ms[i]) == Ran(ms[i + 1])
  }

  /** An instruction, faulting or not. */
  lemma InstructionAligned(m: Machine)
    requires WordAligned(m.core) && Instruction(m).Done?
    ensures WordAligned(Instruction(m).m.core)
  {
    hide Execute, Translate, R32;
    ExecuteKeepsSlot(Issued(m), FetchedWord(m));
    TargetsAligned(Issued(m), FetchedWord(m));
    WrapAligned(m.core.pc, 1);
  }

  lemma DeliveryAligned(c: Core, f: Fault, vector: nat, tpc: u32)
    requires c.cr[7] % 4 == 0
    ensures WordAligned(DeliverFault(c, f)) && WordAligned(DeliverTrap(c, vector, tpc))
  {
    hide MarkValid, ExceptionPsr, ByteEnable;
    WrapAligned(c.cr[7], 4);
    WrapAligned(c.cr[7], 6);
    WrapAligned(c.cr[7], 2 * vector);
  }

  lemma TrapKeepsBase(c: Core, vector: nat, tpc: u32)
    ensures DeliverTrap(c, vector, tpc).cr[7] == c.cr[7]
  {
    hide MarkValid, ExceptionPsr;
  }

  lemma LoopAligned(m: Machine, m': Machine)
    requires Loop(m) == Ran(m') && WordAligned(m.core)
    requires m.core.cr[7] % 4 == 0 && m'.core.cr[7] % 4 == 0
    ensures WordAligned(m'.core)
  {
    hide Instruction, SoftFires, HardFires, AfterSoft, DeliverFault, DeliverTrap, TakeSoft, TakeHard, FaultRegisters;
    if m.mmu.fault.pending {
      DeliveryAligned(m.core, m.mmu.fault.(pending := false), 0, 0);
    } else if Step(m).Done? {
      if Interrupted(m) {
        InterruptAligned(m, m');
      } else {
        AfterSoftKeeps(m);
        InstructionAligned(AfterSoft(m));
      }
    } else {
      var t := Step(m);
      TrapKeepsBase(t.m.core, t.vector, t.tpc);
      DeliveryAligned(t.m.core, m.mmu.fault, t.vector, t.tpc);
    }
  }

  /** pc and pending branch stay word-aligned over every run of the driver loop
      with an aligned vector base. */
  lemma {:induction false} RunAligned(ms: seq<Machine>, i: nat)
    requires Loops(ms) && i < |ms| && WordAligned(ms[0].core)
    requires forall j: nat :: j < |ms| ==> ms[j].core.cr[7] % 4 == 0
    ensures WordAligned(ms[i].core)
    decreases i
  {
    hide Loop, WordAligned;
    if i == 0 {
    } else {
      RunAligned(ms, i - 1);
      assert LoopStep(ms, i - 1);
      LoopAligned(ms[i - 1], ms[i]);
    }
  }

  // --- the loop by count --------------------------------------------------------------

  /** The states a number of turns goes through, up to where it stops. */
  function LapStates(m: Machine, limit: nat): (ms: seq<Machine>)
    ensures ms != [] && ms[0] == m && |ms| <= limit + 1
    decreases limit
  {
    if limit == 0 then [m] else match Loop(m) case Ran(m1) => [m] + LapStates(m1, limit - 1) case _ => [m]
  }

  /** They are a run of the loop, and its last state is where the turns end. */
  lemma {:induction false} LapsTrace(m: Machine, limit: nat)
    ensures Loops(LapStates(m, limit))
    ensures Laps(m, limit).Ran? ==>
      |LapStates(m, limit)| == limit + 1 && LapStates(m, limit)[limit] == Laps(m, limit).m
    decreases limit
  {
    hide Loop;
    if limit == 0 {
    } else if Loop(m).Ran? {
      var m1 := Loop(m).m;
      LapsTrace(m1, limit - 1);
      var ms, rest := LapStates(m, limit), LapStates(m1, limit - 1);
      forall i: nat | i + 1 < |ms| ensures LoopStep(ms, i) {
        if i > 0 {
          assert ms[i] == rest[i - 1] && ms[i + 1] == rest[i];
          assert LoopStep(rest, i - 1);
        }
      }
    }
  }

  /** The vector base stays aligned on the way. */
  ghost predicate AlignedBase(m: Machine, limit: nat) {
    forall z :: z in LapStates(m, limit) ==> z.core.cr[7] % 4 == 0
  }

  /** Wherever the turns end, pc and pending branch are word-aligned. */
  lemma LapsAligned(m: Machine, limit: nat)
    requires WordAligned(m.core) && Laps(m, limit).Ran?
    requires AlignedBase(m, limit)
    ensures WordAligned(Laps(m, limit).m.core)
  {
    hide Loops, WordAligned;
    LapsTrace(m, limit);
    RunAligned(LapStates(m, limit), limit);
  }
}
