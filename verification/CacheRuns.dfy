/** The cache under a running processor: over whole runs of the driver loop a
    machine that keeps its translation cache reaches the registers, memory,
    faults and clock of one whose cache is emptied before every turn, as long
    as no turn relies on a page that has changed since the last flush. */
module CacheRuns {
  import opened Words
  import opened Memory
  import opened Mmu
  import opened TlbTransparency
  import opened Cpu
  import opened Driver
  import T = TlbRuns
  import Exceptions
  import Runs

  // --- two machines and their caches ----------------------------------------------------

  /** One machine with two caches, both coherent but for the pages in d. */
  ghost predicate Twins(m: Machine, n: Machine, d: Dirty) {
    n == m.(tlb := n.tlb) && Coherent(Sync(m), m.tlb, d) && Coherent(Sync(m), n.tlb, d)
  }

  /** The tables a turn from m to m1 ran under; only the scratch base can have been
      latched on the way. */
  function Under(m: Machine, m1: Machine): View { Sync(m).(scratch := m1.mmu.scratch) }

  /** Where a turn from m leaves the two: both flushed, or coherent still for the
      tables it ran under. */
  ghost predicate Left(m: Machine, m1: Machine, n1: Machine, d: Dirty, flushed: bool) {
    n1 == m1.(tlb := n1.tlb) && m1.mmu.cfg == m.mmu.cfg &&
    if flushed then m1.tlb == EmptyTlb() && n1.tlb == EmptyTlb()
    else Coherent(Under(m, m1), m1.tlb, d) && Coherent(Under(m, m1), n1.tlb, d)
  }

  lemma TranslatedAlike(v: View, t: Tlb, u: Tlb, va: u32, code: bool, d: Dirty)
    requires Coherent(v, t, d) && Coherent(v, u, d) && Clean(v, d, va, code)
    ensures var a, b := Translate(v, t, va, code), Translate(v, u, va, code);
      (a.pa, a.v) == (b.pa, b.v) == Resolve(v, va, code) &&
      Coherent(a.v, a.t, d) && Coherent(a.v, b.t, d) && SameTables(v.(scratch := a.v.scratch), a.v)
  {
    hide Translate, Resolve, Coherent, Clean;
    TranslateTransparent(v, t, va, code, d);
    TranslateTransparent(v, u, va, code, d);
    Exceptions.TranslateKeeps(v, t, va, code);
  }

  /** Coherence depends on the tables alone. */
  lemma Carried(v: View, w: View, t: Tlb, u: Tlb, d: Dirty)
    requires Coherent(v, t, d) && Coherent(v, u, d) && SameTables(v, w)
    ensures Coherent(w, t, d) && Coherent(w, u, d)
  {
    hide Coherent;
    CoherentTransfers(v, w, t, d);
    CoherentTransfers(v, w, u, d);
  }

  // --- a word of kernel memory -------------------------------------------------------------

  lemma PeekAlike(m: Machine, n: Machine, d: Dirty, va: u32)
    requires Twins(m, n, d) && Clean(Sync(m), d, va, false)
    ensures Peek(m, va).0 == Peek(n, va).0 && Twins(Peek(m, va).1, Peek(n, va).1, d)
    ensures var m1 := Peek(m, va).1; m1.core == m.core && SameTables(Under(m, m1), Sync(m1))
  {
    hide Translate, Resolve, Coherent, R32, Clean;
    TranslatedAlike(Sync(m), m.tlb, n.tlb, va, false, d);
    var a, b := Translate(Sync(m), m.tlb, va, false), Translate(Sync(n), n.tlb, va, false);
    Carried(a.v, Sync(Peek(m, va).1), a.t, b.t, d);
  }

  /** The two looks of the software-interrupt gate. */
  ghost predicate CleanLooks(m: Machine, d: Dirty) {
    Clean(Sync(m), d, SPL_LEVEL, false) && Clean(Sync(Peek(m, SPL_LEVEL).1), d, SOFTINT_PENDING, false)
  }

  lemma SoftAlike(m: Machine, n: Machine, d: Dirty)
    requires Twins(m, n, d) && (SoftLooks(m) ==> CleanLooks(m, d))
    ensures SoftFires(m) == SoftFires(n) && Twins(AfterSoft(m), AfterSoft(n), d)
    ensures SameTables(Under(m, AfterSoft(m)), Sync(AfterSoft(m)))
  {
    hide Coherent, Peek, AboveLevel, R32, Clean;
    if SoftLooks(m) {
      PeekAlike(m, n, d, SPL_LEVEL);
      PeekAlike(Peek(m, SPL_LEVEL).1, Peek(n, SPL_LEVEL).1, d, SOFTINT_PENDING);
    }
  }

  // --- one instruction -------------------------------------------------------------------

  /** The address of an instruction's memory operand, if it has one. */
  function Operand(m: Machine, w: u32): Option<u32> {
    var a, b := Rr(m.core, S1Of(w)), Rr(m.core, S2Of(w));
    if OpOf(w) < 0x0C then Some(Wrap(a + ImmOf(w)))
    else if OpOf(w) == 0x3D && SubOf(w) < 0x0C then
      Some(Wrap(a + if VarOf(w) >= 0x10 then Wrap(b * SCALE[SubOf(w)]) else b))
    else None
  }

  function SubOfOperand(w: u32): Sub6 { if OpOf(w) == 0x3D then SubOf(w) else OpOf(w) }

  /** A word store that empties the cache. */
  predicate StoreFlushes(m: Machine, a: u32, val: u32) { m.sysmode && a != IRQ_SOURCE && Flushes(a, val) }

  predicate TransferFlushes(m: Machine, sub: Sub6, d: Reg5, pa: u32) {
    (sub == 0x09 && StoreFlushes(m, pa, Rr(m.core, d))) ||
    (sub == 0x08 && d < 31 &&
     (StoreFlushes(m, pa, Rr(m.core, d)) || StoreFlushes(m, Wrap(pa + 4), Rr(m.core, d + 1))))
  }

  function DataAccess(m: Machine, sub: Sub6, ea: u32): Ans {
    Translate(Sync(m).(xlatWrite := Writes(sub)), m.tlb, ea, false)
  }

  predicate MemFlushes(m: Machine, sub: Sub6, d: Reg5, ea: u32) {
    sub < 0x0C && !DataAccess(m, sub, ea).v.fault.pending && TransferFlushes(m, sub, d, DataAccess(m, sub, ea).pa)
  }

  lemma WriteAlike(m: Machine, n: Machine, a: u32, val: u32)
    requires n == m.(tlb := n.tlb)
    ensures var m1, n1 := DevWrite32(m, a, val), DevWrite32(n, a, val);
      n1 == m1.(tlb := n1.tlb) && m1.mmu.cfg == m.mmu.cfg && m1.mmu.scratch == m.mmu.scratch &&
      m1.core == m.core && m1.sysmode == m.sysmode &&
      if StoreFlushes(m, a, val) then m1.tlb == EmptyTlb() && n1.tlb == EmptyTlb()
      else m1.tlb == m.tlb && n1.tlb == n.tlb
  {
    hide W32, TcsPoke, ClockWritten, Flushes, EmptyTlb;
    PokeKeeps(StoreWord(m.mmu, a, val), m.tcsMbox, a);
    StoreKeeps(m.mmu, a, val);
  }

  lemma PokeKeeps(v: View, mbox: u32, a: u32)
    ensures TcsPoke(v, mbox, a) == v.(mem := TcsPoke(v, mbox, a).mem)
  {
    hide R8, W8;
  }

  lemma StoreKeeps(v: View, a: u32, val: u32)
    ensures StoreWord(v, a, val) == v.(mem := StoreWord(v, a, val).mem)
  {
    hide W32, R32, WalkFb, NodeZero, At;
  }

  lemma TransferAlike(m: Machine, n: Machine, sub: Sub6, d: Reg5, pa: u32)
    requires n == m.(tlb := n.tlb) && sub < 0x0C && !PairOverrun(sub, d)
    ensures var m1, n1 := Transfer(m, sub, d, pa), Transfer(n, sub, d, pa);
      n1 == m1.(tlb := n1.tlb) && m1.mmu.cfg == m.mmu.cfg && m1.mmu.scratch == m.mmu.scratch &&
      if TransferFlushes(m, sub, d, pa) then m1.tlb == EmptyTlb() && n1.tlb == EmptyTlb()
      else m1.tlb == m.tlb && n1.tlb == n.tlb
  {
    hide R32, R16, R8, W32, W16, W8, SignExtend8, SignExtend16, TcsPoke, DevWrite32, StoreFlushes, EmptyTlb, Wr;
    if sub == 0x09 {
      WriteAlike(m, n, pa, Rr(m.core, d));
    } else if sub == 0x08 {
      WriteAlike(m, n, pa, Rr(m.core, d));
      var m1, n1 := DevWrite32(m, pa, Rr(m.core, d)), DevWrite32(n, pa, Rr(m.core, d));
      WriteAlike(m1, n1, Wrap(pa + 4), Rr(m.core, d + 1));
      SameFlush(m, m1, Wrap(pa + 4), Rr(m.core, d + 1));
    } else if sub == 0x0B {
      PokeKeeps(m.mmu.(mem := W8(m.mmu.cfg.fold, m.mmu.mem, pa, Rr(m.core, d) % 0x100)), m.tcsMbox, pa);
    }
  }

  lemma SameFlush(m: Machine, n: Machine, a: u32, val: u32)
    requires m.sysmode == n.sysmode
    ensures StoreFlushes(m, a, val) == StoreFlushes(n, a, val)
  {
  }

  /** What two executions of one instruction come to. */
  ghost predicate SameExec(e: Exec, f: Exec) {
    match e
    case Stuck => f == Stuck
    case Trap(m1, vector) => f.Trap? && f.vector == vector && f.m == m1.(tlb := f.m.tlb)
    case Ok(m1, br) => f.Ok? && f.br == br && f.m == m1.(tlb := f.m.tlb)
  }

  ghost predicate ExecLeft(m: Machine, e: Exec, f: Exec, d: Dirty, flushed: bool) {
    SameExec(e, f) && (!e.Stuck? ==> Left(m, e.m, f.m, d, flushed))
  }

  lemma MemAlike(m: Machine, n: Machine, sub: Sub6, r: Reg5, ea: u32, d: Dirty)
    requires Twins(m, n, d) && sub < 0x10 && (sub < 0x0C ==> Clean(Sync(m), d, ea, false))
    ensures ExecLeft(m, MemOp(m, sub, r, ea), MemOp(n, sub, r, ea), d, MemFlushes(m, sub, r, ea))
  {
    hide Translate, Resolve, Coherent, Transfer, TransferFlushes, Wr, Clean, EmptyTlb;
    if sub < 0x0C {
      var v := Sync(m).(xlatWrite := Writes(sub));
      Carried(Sync(m), v, m.tlb, n.tlb, d);
      SameClean(Sync(m), v, d, ea);
      TranslatedAlike(v, m.tlb, n.tlb, ea, false, d);
      var a, b := Translate(v, m.tlb, ea, false), Translate(v, n.tlb, ea, false);
      var m1, n1 := m.(mmu := a.v.(xlatWrite := false), tlb := a.t), n.(mmu := b.v.(xlatWrite := false), tlb := b.t);
      Carried(a.v, Under(m, m1), a.t, b.t, d);
      if !a.v.fault.pending && !PairOverrun(sub, r) {
        TransferAlike(m1, n1, sub, r, a.pa);
        SameTransferFlush(m, m1, sub, r, a.pa);
      }
    }
  }

  lemma SameClean(v: View, w: View, d: Dirty, va: u32)
    requires v.cfg == w.cfg && v.scratch == w.scratch
    ensures Clean(v, d, va, false) == Clean(w, d, va, false)
  {
  }

  lemma SameTransferFlush(m: Machine, n: Machine, sub: Sub6, r: Reg5, pa: u32)
    requires m.sysmode == n.sysmode && m.core == n.core
    ensures TransferFlushes(m, sub, r, pa) == TransferFlushes(n, sub, r, pa)
  {
  }

  predicate ExecFlushes(m: Machine, w: u32) {
    Operand(m, w).Some? && MemFlushes(m, SubOfOperand(w), DOf(w), Operand(m, w).value)
  }

  ghost predicate CleanExec(m: Machine, w: u32, d: Dirty) {
    Operand(m, w).Some? ==> Clean(Sync(m), d, Operand(m, w).value, false)
  }

  lemma TriadicAlike(m: Machine, n: Machine, w: u32)
    requires n == m.(tlb := n.tlb) && SubOf(w) >= 0x10
    ensures SameExec(Triadic(m, w), Triadic(n, w))
    ensures var e, f := Triadic(m, w), Triadic(n, w);
      !e.Stuck? ==> e.m.tlb == m.tlb && f.m.tlb == n.tlb && e.m.mmu == m.mmu
  {
    hide AluTriadic, Field, SubOf, DOf, S1Of, S2Of, VarOf, MemOp, HighBit, RteTarget, Wrap;
  }

  /** Instructions without a memory operand never look at the cache. */
  lemma PlainAlike(m: Machine, n: Machine, w: u32)
    requires n == m.(tlb := n.tlb) && OpOf(w) >= 0x10 && (OpOf(w) == 0x3D ==> SubOf(w) >= 0x10)
    ensures SameExec(Execute(m, w), Execute(n, w))
    ensures var e, f := Execute(m, w), Execute(n, w);
      !e.Stuck? ==> e.m.tlb == m.tlb && f.m.tlb == n.tlb && e.m.mmu == m.mmu
  {
    hide AluImm, AluTriadic, Field, OpOf, DOf, S1Of, S2Of, ImmOf, SubOf, VarOf, CtlSubOf, CrOf, MemOp;
    hide CondTrue, Disp16, Disp26, HighBit, Bit, RteTarget, FpOp, Wrap, Triadic;
    if OpOf(w) == 0x3D { TriadicAlike(m, n, w); }
  }

  lemma ExecuteAlike(m: Machine, n: Machine, w: u32, d: Dirty)
    requires Twins(m, n, d) && CleanExec(m, w, d)
    ensures ExecLeft(m, Execute(m, w), Execute(n, w), d, ExecFlushes(m, w))
  {
    hide Coherent, MemOp, MemFlushes, Clean, OpOf, SubOf, DOf, S1Of, S2Of, ImmOf, VarOf, Wrap;
    hide Control, Float, Branches, BranchCond, FieldsAndTraps, Result, FieldResult, AluImm, AluTriadic, EmptyTlb;
    var a, b := Rr(m.core, S1Of(w)), Rr(m.core, S2Of(w));
    if OpOf(w) < 0x10 {
      var ea := Wrap(a + ImmOf(w));
      OnlyAccessesFlush(m, OpOf(w), DOf(w), ea);
      MemAlike(m, n, OpOf(w), DOf(w), ea, d);
    } else if OpOf(w) == 0x3D && SubOf(w) < 0x10 {
      var ea := Wrap(a + if VarOf(w) >= 0x10 then Wrap(b * SCALE[SubOf(w)]) else b);
      OnlyAccessesFlush(m, SubOf(w), DOf(w), ea);
      MemAlike(m, n, SubOf(w), DOf(w), ea, d);
      assert Execute(m, w) == MemOp(m, SubOf(w), DOf(w), ea) && Execute(n, w) == MemOp(n, SubOf(w), DOf(w), ea);
    } else {
      PlainAlike(m, n, w);
    }
  }

  lemma OnlyAccessesFlush(m: Machine, sub: Sub6, r: Reg5, ea: u32)
    ensures MemFlushes(m, sub, r, ea) ==> sub < 0x0C
  {
    hide Translate, TransferFlushes;
  }

  /** A turn taken in two parts. */
  lemma LeftAfter(m: Machine, i: Machine, z: Machine, y: Machine, d: Dirty, flushed: bool)
    requires SameTables(Under(m, i), Sync(i)) && Left(i, z, y, d, flushed)
    ensures Left(m, z, y, d, flushed)
  {
    hide Coherent, EmptyTlb;
    if !flushed { Carried(Under(i, z), Under(m, z), z.tlb, y.tlb, d); }
  }

  /** Registers and clock aside, what is left is left. */
  lemma LeftCore(m: Machine, z: Machine, y: Machine, z': Machine, y': Machine, d: Dirty, flushed: bool)
    requires Left(m, z, y, d, flushed)
    requires z'.mmu.scratch == z.mmu.scratch && z'.mmu.cfg == z.mmu.cfg && z'.tlb == z.tlb && y' == z'.(tlb := y.tlb)
    ensures Left(m, z', y', d, flushed)
  {
    hide Coherent, EmptyTlb;
  }

  lemma TwinsLeft(m: Machine, z: Machine, y: Machine, d: Dirty)
    requires Twins(z, y, d) && SameTables(Under(m, z), Sync(z))
    ensures Left(m, z, y, d, false)
  {
    hide Coherent, EmptyTlb;
    Carried(Sync(z), Under(m, z), z.tlb, y.tlb, d);
  }

  ghost predicate SameOutcome(o: Outcome, p: Outcome) {
    match o
    case Crashed => p == Crashed
    case Trapped(m1, vector, tpc) => p.Trapped? && p.vector == vector && p.tpc == tpc && p.m == m1.(tlb := p.m.tlb)
    case Done(m1) => p.Done? && p.m == m1.(tlb := p.m.tlb)
  }

  ghost predicate OutcomeLeft(m: Machine, o: Outcome, p: Outcome, d: Dirty, flushed: bool) {
    SameOutcome(o, p) && (!o.Crashed? ==> Left(m, o.m, p.m, d, flushed))
  }

  ghost predicate CleanInstruction(m: Machine, d: Dirty) {
    Clean(Sync(m), d, m.core.pc, true) && (!Fetch(m).v.fault.pending ==> CleanExec(Issued(m), FetchedWord(m), d))
  }

  predicate InstructionFlushes(m: Machine) {
    !Fetch(m).v.fault.pending && ExecFlushes(Issued(m), FetchedWord(m))
  }

  lemma FetchAlike(m: Machine, n: Machine, d: Dirty)
    requires Twins(m, n, d) && Clean(Sync(m), d, m.core.pc, true)
    ensures Fetch(m).v == Fetch(n).v && FetchedWord(m) == FetchedWord(n)
    ensures Twins(Issued(m), Issued(n), d) && SameTables(Under(m, Issued(m)), Sync(Issued(m)))
  {
    hide Translate, Resolve, Coherent, R32, Clean;
    TranslatedAlike(Sync(m), m.tlb, n.tlb, m.core.pc, true, d);
    var a, b := Fetch(m), Fetch(n);
    Carried(a.v, Sync(Issued(m)), a.t, b.t, d);
  }

  lemma FinishAlike(m: Machine, n: Machine, w: u32, at: u32, d: Dirty)
    requires Twins(m, n, d) && CleanExec(m, w, d)
    ensures OutcomeLeft(m, Finish(m, w, at), Finish(n, w, at), d, ExecFlushes(m, w))
  {
    hide Coherent, Execute, ExecFlushes, CleanExec, Sequence, Left;
    ExecuteAlike(m, n, w, d);
    var e, f := Execute(m, w), Execute(n, w);
    if e.Ok? && !e.m.mmu.fault.pending {
      LeftCore(m, e.m, f.m, e.m.(core := Sequence(e.m.core, e.br)), f.m.(core := Sequence(f.m.core, f.br)), d,
        ExecFlushes(m, w));
    }
  }

  lemma InstructionAlike(m: Machine, n: Machine, d: Dirty)
    requires Twins(m, n, d) && CleanInstruction(m, d)
    ensures OutcomeLeft(m, Instruction(m), Instruction(n), d, InstructionFlushes(m))
  {
    hide Coherent, Fetch, FetchedWord, Finish, ExecFlushes, CleanExec, Clean, Left;
    FetchAlike(m, n, d);
    if Fetch(m).v.fault.pending {
      FetchLeft(m, n, d);
    } else {
      var w := FetchedWord(m);
      FinishAlike(Issued(m), Issued(n), w, m.core.pc, d);
      var o, p := Finish(Issued(m), w, m.core.pc), Finish(Issued(n), w, m.core.pc);
      if !o.Crashed? { LeftAfter(m, Issued(m), o.m, p.m, d, ExecFlushes(Issued(m), w)); }
    }
  }

  /** A fetch that faults. */
  lemma FetchLeft(m: Machine, n: Machine, d: Dirty)
    requires Twins(m, n, d) && Clean(Sync(m), d, m.core.pc, true)
    ensures Left(m, m.(mmu := Fetch(m).v, tlb := Fetch(m).t), n.(mmu := Fetch(n).v, tlb := Fetch(n).t), d, false)
  {
    hide Coherent, Fetch, FetchedWord, Clean, EmptyTlb;
    FetchAlike(m, n, d);
    Carried(Sync(Issued(m)), Under(m, Issued(m)), Issued(m).tlb, Issued(n).tlb, d);
  }

  // --- one turn of the driver loop ------------------------------------------------------------

  /** A turn that relies on no page in d. */
  ghost predicate CleanTurn(m: Machine, d: Dirty) {
    m.mmu.fault.pending ||
    ((SoftLooks(m) ==> CleanLooks(m, d)) &&
     (!SoftFires(m) ==>
        if HardFires(AfterSoft(m)) then Clean(Sync(AfterSoft(m)), d, SOFTINT_PENDING, false)
        else CleanInstruction(AfterSoft(m), d)))
  }

  /** A turn whose store empties the cache. */
  predicate TurnFlushes(m: Machine) {
    !m.mmu.fault.pending && !SoftFires(m) && !HardFires(AfterSoft(m)) && InstructionFlushes(AfterSoft(m))
  }

  lemma StepAlike(m: Machine, n: Machine, d: Dirty)
    requires Twins(m, n, d) && CleanTurn(m, d) && !m.mmu.fault.pending
    ensures OutcomeLeft(m, Step(m), Step(n), d, TurnFlushes(m))
  {
    hide Coherent, SoftLooks, SoftFires, AfterSoft, HardFires, Instruction, InstructionFlushes, CleanInstruction, Clean;
    hide CleanLooks, Left, SoftTaken, TakeHard;
    SoftAlike(m, n, d);
    var m1, n1 := AfterSoft(m), AfterSoft(n);
    TwinsLeft(m, m1, n1, d);
    if SoftFires(m) {
      SoftTakenAlike(m1, n1);
      LeftCore(m, m1, n1, SoftTaken(m1), SoftTaken(n1), d, false);
    } else {
      HardAlike(m1, n1, d);
      if HardFires(m1) {
        HardLeft(m1, n1, d);
        LeftAfter(m, m1, TakeHard(m1), TakeHard(n1), d, false);
      } else {
        InstructionAlike(m1, n1, d);
        var o, p := Instruction(m1), Instruction(n1);
        if !o.Crashed? { LeftAfter(m, m1, o.m, p.m, d, InstructionFlushes(m1)); }
      }
    }
  }

  lemma SoftTakenAlike(m: Machine, n: Machine)
    requires n == m.(tlb := n.tlb)
    ensures SoftTaken(n) == SoftTaken(m).(tlb := n.tlb) && SoftTaken(m).tlb == m.tlb && SoftTaken(m).mmu == m.mmu
  {
    hide DeliverException;
  }

  lemma HardAlike(m: Machine, n: Machine, d: Dirty)
    requires Twins(m, n, d)
    ensures HardFires(m) == HardFires(n)
  {
    hide Coherent, R32;
  }

  lemma HardLeft(m: Machine, n: Machine, d: Dirty)
    requires Twins(m, n, d) && Clean(Sync(m), d, SOFTINT_PENDING, false)
    ensures Left(m, TakeHard(m), TakeHard(n), d, false) && TakeHard(n) == TakeHard(m).(tlb := TakeHard(n).tlb)
  {
    hide Coherent, Peek, Clean, DeliverException, EmptyTlb, HardClock;
    PeekAlike(m, n, d, SOFTINT_PENDING);
    var m1, n1 := Peek(m, SOFTINT_PENDING).1, Peek(n, SOFTINT_PENDING).1;
    TwinsLeft(m, m1, n1, d);
  }

  ghost predicate SameTurn(x: Turn, y: Turn) {
    match x
    case Broken => y == Broken
    case Halted(m1, vector) => y.Halted? && y.vector == vector && y.m == m1.(tlb := y.m.tlb)
    case Ran(m1) => y.Ran? && y.m == m1.(tlb := y.m.tlb)
  }

  /** Pages changed by a turn, under the tables it ran under; a flush settles all. */
  ghost function DirtyTurn(m: Machine, m1: Machine, d: Dirty): Dirty {
    T.DirtyAfter(Under(m, m1), Sync(m1), d, TurnFlushes(m))
  }

  lemma LoopAlike(m: Machine, n: Machine, d: Dirty)
    requires Twins(m, n, d) && CleanTurn(m, d)
    ensures SameTurn(Loop(m), Loop(n))
    ensures Loop(m).Ran? ==> Left(m, Loop(m).m, Loop(n).m, d, TurnFlushes(m))
  {
    hide Coherent, Step, TurnFlushes, CleanTurn, Left, DeliverTrap, TakeFault;
    NoFlushOnFault(m);
    if m.mmu.fault.pending {
      FaultLeft(m, n, d);
    } else {
      StepAlike(m, n, d);
      var o, p := Step(m), Step(n);
      if o.Trapped? {
        LeftCore(m, o.m, p.m, o.m.(core := DeliverTrap(o.m.core, o.vector, o.tpc)),
          p.m.(core := DeliverTrap(p.m.core, p.vector, p.tpc)), d, TurnFlushes(m));
      }
    }
  }

  lemma NoFlushOnFault(m: Machine)
    ensures m.mmu.fault.pending ==> !TurnFlushes(m)
  {
    hide SoftFires, HardFires, InstructionFlushes;
  }

  lemma FaultLeft(m: Machine, n: Machine, d: Dirty)
    requires Twins(m, n, d)
    ensures Left(m, TakeFault(m), TakeFault(n), d, false) && TakeFault(n) == TakeFault(m).(tlb := n.tlb)
  {
    hide Coherent, W32, DeliverFault, EmptyTlb;
    Carried(Sync(m), Under(m, TakeFault(m)), m.tlb, n.tlb, d);
  }

  /** After a turn the two caches are coherent again, but for the pages it changed. */
  lemma TurnTwins(m: Machine, m1: Machine, n1: Machine, d: Dirty)
    requires Left(m, m1, n1, d, TurnFlushes(m))
    ensures Twins(m1, n1, DirtyTurn(m, m1, d))
  {
    hide Coherent, TurnFlushes;
    var d' := DirtyTurn(m, m1, d);
    if TurnFlushes(m) {
      T.EmptyCoherent(Sync(m1), d');
    } else {
      T.ChangeCoherent(Under(m, m1), Sync(m1), m1.tlb, d);
      T.ChangeCoherent(Under(m, m1), Sync(m1), n1.tlb, d);
    }
  }

  // --- whole runs ---------------------------------------------------------------------------

  function Uncached(m: Machine): Machine { m.(tlb := EmptyTlb()) }

  /** The loop with the cache emptied before every turn. */
  function UncachedLaps(m: Machine, limit: nat): Turn
    decreases limit
  {
    if limit == 0 then Ran(m)
    else match Loop(Uncached(m)) case Ran(m1) => UncachedLaps(m1, limit - 1) case o => o
  }

  /** Inside one such turn, after the interrupt gates have looked, the fetch and the
      data access are what walking the tables gives: nothing is left of any cache. */
  lemma UncachedWalks(m: Machine, va: u32, write: bool)
    ensures var u := AfterSoft(Uncached(m)); (Fetch(u).pa, Fetch(u).v) == Resolve(Sync(u), m.core.pc, true)
    ensures var i := Issued(AfterSoft(Uncached(m))); var v := Sync(i).(xlatWrite := write);
      var a := Translate(v, i.tlb, va, false); (a.pa, a.v) == Resolve(v, va, false)
  {
    hide Translate, Resolve, Coherent, R32, EmptyTlb, AfterSoft, SoftLooks, SoftFires, Peek;
    T.EmptyCoherent(Sync(Uncached(m)), iset{});
    SoftAlike(Uncached(m), Uncached(m), iset{});
    Runs.AfterSoftKeeps(Uncached(m));
    var u := AfterSoft(Uncached(m));
    TranslatedAlike(Sync(u), u.tlb, u.tlb, m.core.pc, true, iset{});
    var i := Issued(u);
    var v := Sync(i).(xlatWrite := write);
    Carried(Fetch(u).v, v, i.tlb, i.tlb, iset{});
    TranslatedAlike(v, i.tlb, i.tlb, va, false, iset{});
  }

  /** A run of the uncached machine in which no turn relies on a page that has changed
      since the last flush. */
  ghost predicate Steady(m: Machine, d: Dirty, limit: nat)
    decreases limit
  {
    limit == 0 ||
    (CleanTurn(Uncached(m), d) &&
     (Loop(Uncached(m)).Ran? ==>
       Steady(Loop(Uncached(m)).m, DirtyTurn(Uncached(m), Loop(Uncached(m)).m, d), limit - 1)))
  }

  /** Over every such run the machine with a cache and the one without make the same
      turns: same registers, memory, faults, clock, traps and end. */
  lemma {:induction false} LapsTransparent(m: Machine, n: Machine, d: Dirty, limit: nat)
    requires n == m.(tlb := n.tlb) && Coherent(Sync(m), m.tlb, d) && Steady(n, d, limit)
    ensures SameTurn(Laps(m, limit), UncachedLaps(n, limit))
    decreases limit
  {
    hide Coherent, Loop, CleanTurn, DirtyTurn, EmptyTlb, Left;
    if limit == 0 {
    } else {
      var u := Uncached(n);
      T.EmptyCoherent(Sync(u), d);
      assert Twins(u, m, d);
      LoopAlike(u, m, d);
      if Loop(u).Ran? {
        TurnTwins(u, Loop(u).m, Loop(m).m, d);
        LapsTransparent(Loop(m).m, Loop(u).m, DirtyTurn(u, Loop(u).m, d), limit - 1);
      }
    }
  }

  /** A machine where these turns end, but for its cache. */
  ghost predicate EndsAs(m: Machine, y: Turn) { y.Ran? && y.m == m.(tlb := y.m.tlb) }

  /** From reset, with nothing cached and nothing changed. */
  lemma LapsFromReset(m: Machine, limit: nat)
    requires m.tlb == EmptyTlb() && Steady(m, iset{}, limit)
    ensures SameTurn(Laps(m, limit), UncachedLaps(m, limit))
  {
    hide Coherent, Steady, Laps, UncachedLaps;
    T.EmptyCoherent(Sync(m), iset{});
    LapsTransparent(m, m, iset{}, limit);
  }
}
