/** The processor as the program runs it: register arrays, the translation unit and
    the clock's variables updated in place by the step, the driver loop and
    kernel calls. */
module Processor {
  import opened Words
  import opened Memory
  import opened Mmu
  import opened MmuUnit
  import opened Cpu
  import opened Driver
  import ClockRuns
  import CacheRuns
  import Runs

  const KCALL_RET: u32 := 0x00DE_AD00

  datatype Report = NoTrap | TrapAt(vector: u32, tpc: u32) | Crash

  /** Where an executed instruction sends control. */
  datatype Flow = Onward | Taken(target: u32, delayed: bool) | Raises(vector: u32) | Breaks

  /** What an execution in place has done, against what it should have. */
  predicate Follows(flow: Flow, e: Exec) {
    match e
    case Ok(_, br) => flow == (match br case Next => Onward case Jump(t, delayed) => Taken(t, delayed))
    case Trap(_, vector) => flow == Raises(vector)
    case Stuck => flow == Breaks
  }

  class Node {
    const unit: Unit
    const r: array<u32>
    const cr: array<u32>
    var pc: u32
    var pending: u32
    var hasPending: bool
    var count: nat

    const irq: bool
    const tickDiv: nat
    const period: nat
    const softPeriod: nat
    var deadline: u32
    var armed: bool
    var enabled: bool
    var nextClock: nat
    var nextSoft: nat
    var ticks: nat
    var softTicks: nat
    var irqSource: u32
    var cmpWrites: nat

    var inKcall: bool
    const sysmode: bool
    const tcsMbox: u32
    const fpu: FpUnit

    ghost predicate Valid()
      reads this, unit
    {
      unit.Valid() && r.Length == 32 && cr.Length == 64 && r != cr
    }

    ghost function C(): Core
      requires Valid()
      reads this, unit, r, cr
    {
      Core(r[..], cr[..], pc, pending, hasPending, count)
    }

    ghost function K(): Clock
      reads this
    {
      Clock(irq, tickDiv, deadline, armed, enabled, nextClock, period, nextSoft, softPeriod,
            ticks, softTicks, irqSource, cmpWrites)
    }

    ghost function M(): Machine
      requires Valid()
      reads this, unit, unit.dataBank, unit.codeBank, r, cr
    {
      Machine(C(), unit.V(), unit.T(), sysmode, K(), inKcall, tcsMbox, fpu)
    }

    /** A processor at reset in front of a translation unit. */
    constructor (unit: Unit, k: Clock, sysmode: bool, tcsMbox: u32, fpu: FpUnit)
      requires unit.Valid()
      ensures Valid() && fresh(r) && fresh(cr) && this.unit == unit
      ensures M() == Machine(Core(r[..], cr[..], 0, 0, false, 0), unit.V(), unit.T(), sysmode, k, false, tcsMbox, fpu)
      ensures (forall i :: 0 <= i < 32 ==> r[i] == 0) && (forall i :: 0 <= i < 64 ==> cr[i] == 0)
    {
      this.unit, this.sysmode, this.tcsMbox, this.fpu := unit, sysmode, tcsMbox, fpu;
      r := new u32[32](_ => 0);
      cr := new u32[64](_ => 0);
      pc, pending, hasPending, count, inKcall := 0, 0, false, 0, false;
      irq, tickDiv, period, softPeriod := k.irq, k.tickDiv, k.period, k.softPeriod;
      deadline, armed, enabled := k.deadline, k.armed, k.enabled;
      nextClock, nextSoft, ticks, softTicks := k.nextClock, k.nextSoft, k.ticks, k.softTicks;
      irqSource, cmpWrites := k.irqSource, k.cmpWrites;
    }

    /** What an execution in place has reached is what it should have. */
    ghost predicate Did(flow: Flow, e: Exec)
      requires Valid()
      reads this, unit, unit.dataBank, unit.codeBank, r, cr
    {
      Follows(flow, e) && (e.Stuck? || M() == e.m)
    }

    // --- registers and memory -------------------------------------------------------

    function Reg(n: Reg5): u32
      requires r.Length == 32
      reads r
    {
      if n == 0 then 0 else r[n]
    }

    /** Register 0 stays 0 whatever is written to it. */
    method SetR(d: Reg5, v: u32)
      requires Valid()
      modifies r
      ensures C() == Wr(old(C()), d, v)
    {
      if d != 0 { r[d] := v; }
    }

    /** Translate with the processor's current mode and pc. */
    method Xlat(va: u32, code: bool) returns (pa: u32)
      requires Valid()
      modifies unit`psr, unit`pc, unit`scratch, unit`fault, unit`misses, unit`missVa, unit`missPc
      modifies unit.dataBank, unit.codeBank
      ensures Ans(pa, unit.V(), unit.T()) == Translate(old(Sync(M())), old(unit.T()), va, code)
    {
      unit.psr, unit.pc := cr[1], pc;
      pa := unit.Translate(va, code);
    }

    method Poke(a: u32)
      requires Valid()
      modifies unit`mem
      ensures unit.V() == TcsPoke(old(unit.V()), tcsMbox, a)
    {
      hide R8, W8;
      if a != tcsMbox { return; }
      var cmd := R8(unit.cfg.fold, unit.mem, tcsMbox);
      if cmd == 0 { return; }
      unit.mem := W8(unit.cfg.fold, unit.mem, tcsMbox, 0);
      unit.mem := W8(unit.cfg.fold, unit.mem, Wrap(tcsMbox + 5), 1);
    }

    method BusStore(a: u32, val: u32)
      requires Valid()
      modifies unit`mem, unit.dataBank, unit.codeBank
      ensures unit.V() == TcsPoke(StoreWord(old(unit.V()), a, val), tcsMbox, a)
      ensures unit.T() == if Flushes(a, val) then EmptyTlb() else old(unit.T())
    {
      hide StoreWord, TcsPoke, Flushes;
      unit.StoreWord(a, val);
      Poke(a);
    }

    /** The compare register arms the deadline; the enable register is remembered. */
    method ClockStore(a: u32, val: u32)
      modifies this`deadline, this`armed, this`enabled, this`cmpWrites
      ensures K() == ClockWritten(old(K()), a, val)
    {
      if a == TIMER_CMP { deadline, armed, cmpWrites := val, true, cmpWrites + 1; }
      if a == TIMER_ENA { enabled := val != 0; }
    }

    /** A word store on the device bus. */
    method DevWrite(a: u32, val: u32)
      requires Valid()
      modifies this`irqSource, this`deadline, this`armed, this`enabled, this`cmpWrites
      modifies unit`mem, unit.dataBank, unit.codeBank
      ensures M() == DevWrite32(old(M()), a, val)
    {
      hide W32, StoreWord, TcsPoke, Flushes, ClockWritten;
      if !sysmode {
        unit.mem := W32(unit.cfg.fold, unit.mem, a, val);
        return;
      }
      if a == IRQ_SOURCE {
        irqSource := val;
        return;
      }
      ClockStore(a, val);
      BusStore(a, val);
    }

    /** Loads into the register array. */
    method Load(sub: Sub6, d: Reg5, pa: u32)
      requires Valid() && 0x02 <= sub <= 0x07 && !PairOverrun(sub, d)
      modifies r
      ensures M() == Transfer(old(M()), sub, d, pa)
    {
      hide R32, R16, R8, SignExtend8, SignExtend16, Wr;
      var f, s := unit.cfg.fold, unit.mem;
      if sub == 0x05 {
        SetR(d, R32(f, s, pa));
      } else if sub == 0x07 {
        SetR(d, SignExtend8(R8(f, s, pa)));
      } else if sub == 0x03 {
        SetR(d, R8(f, s, pa));
      } else if sub == 0x06 {
        SetR(d, SignExtend16(R16(f, s, pa)));
      } else if sub == 0x02 {
        SetR(d, R16(f, s, pa));
      } else {
        SetR(d, R32(f, s, pa));
        SetR(d + 1, R32(f, s, Wrap(pa + 4)));
      }
    }

    /** Stores of a word, a byte, a halfword and a doubleword. */
    method StoreTo(sub: Sub6, d: Reg5, pa: u32)
      requires Valid() && 0x08 <= sub <= 0x0B && !PairOverrun(sub, d)
      modifies this`irqSource, this`deadline, this`armed, this`enabled, this`cmpWrites
      modifies unit`mem, unit.dataBank, unit.codeBank
      ensures M() == Transfer(old(M()), sub, d, pa)
    {
      hide W16, W8, DevWrite32, TcsPoke, Wrap;
      if sub == 0x09 {
        DevWrite(pa, Reg(d));
      } else if sub == 0x0B {
        unit.mem := W8(unit.cfg.fold, unit.mem, pa, Reg(d) % 0x100);
        Poke(pa);
      } else if sub == 0x0A {
        unit.mem := W16(unit.cfg.fold, unit.mem, pa, Reg(d) % 0x1_0000);
      } else {
        DevWrite(pa, Reg(d));
        DevWrite(Wrap(pa + 4), Reg(d + 1));
      }
    }

    /** Exchange a word or a byte with a register. */
    method Exchange(sub: Sub6, d: Reg5, pa: u32)
      requires Valid() && sub <= 0x01
      modifies r, unit`mem
      ensures M() == Transfer(old(M()), sub, d, pa)
    {
      hide R32, R8, W32, W8, Wr;
      var f, s := unit.cfg.fold, unit.mem;
      if sub == 0x01 {
        var was := R32(f, s, pa);
        unit.mem := W32(f, s, pa, Reg(d));
        SetR(d, was);
      } else {
        var was := R8(f, s, pa);
        unit.mem := W8(f, s, pa, Reg(d) % 0x100);
        SetR(d, was);
      }
    }

    /** The access itself, at a physical address. */
    method Access(sub: Sub6, d: Reg5, pa: u32)
      requires Valid() && sub < 0x0C && !PairOverrun(sub, d)
      modifies this`irqSource, this`deadline, this`armed, this`enabled, this`cmpWrites
      modifies r, unit`mem, unit.dataBank, unit.codeBank
      ensures M() == Transfer(old(M()), sub, d, pa)
    {
      hide Transfer;
      if sub <= 0x01 {
        Exchange(sub, d, pa);
      } else if sub <= 0x07 {
        Load(sub, d, pa);
      } else {
        StoreTo(sub, d, pa);
      }
    }

    /** Load, store, exchange, load-address; abort before touching anything on a
        page fault. */
    method Memop(sub: Sub6, d: Reg5, ea: u32) returns (flow: Flow)
      requires Valid() && sub < 0x10
      modifies this`irqSource, this`deadline, this`armed, this`enabled, this`cmpWrites
      modifies r, unit, unit.dataBank, unit.codeBank
      ensures Did(flow, MemOp(old(M()), sub, d, ea)) && (flow.Breaks? ==> K() == old(K()))
    {
      hide Translate, Transfer, Wr;
      if sub >= 0x0C {
        SetR(d, ea);
        return Onward;
      }
      unit.xlatWrite := Writes(sub);
      var pa := Xlat(ea, false);
      unit.xlatWrite := false;
      if unit.fault.pending {
        unit.fault := unit.fault.(write := Writes(sub), width := SCALE[sub]);
        return Onward;
      }
      if PairOverrun(sub, d) { return Breaks; }
      Access(sub, d, pa);
      flow := Onward;
    }

    // --- instructions -----------------------------------------------------------------

    /** Store a computed value, or trap. */
    method PutResult(d: Reg5, x: Alu) returns (flow: Flow)
      requires Valid()
      modifies r
      ensures Did(flow, Result(old(M()), d, x))
    {
      hide Wr;
      match x {
        case Val(v) =>
          SetR(d, v);
          flow := Onward;
        case DivZero => flow := Raises(6);
        case Undefined => flow := Breaks;
        case NoOp => flow := Raises(BAD);
      }
    }

    method PutField(d: Reg5, x: Alu) returns (flow: Flow)
      requires Valid()
      modifies r
      ensures Did(flow, FieldResult(old(M()), d, x))
    {
      hide Wr;
      if x.Val? { SetR(d, x.v); }
      flow := Onward;
    }

    /** ldcr, stcr, xcr. */
    method ControlOp(w: u32) returns (flow: Flow)
      requires Valid()
      modifies r, cr
      ensures Did(flow, Control(old(M()), w))
    {
      hide Wr, CtlSubOf, CrOf, S1Of, DOf;
      var sub, n, a := CtlSubOf(w), CrOf(w), Reg(S1Of(w));
      flow := Onward;
      if sub == 0x08 || sub == 0x09 {
        SetR(DOf(w), cr[n]);
      } else if sub == 0x10 || sub == 0x11 {
        cr[n] := a;
      } else if sub == 0x18 || sub == 0x19 {
        var was := cr[n];
        cr[n] := a;
        SetR(DOf(w), was);
      } else {
        flow := Raises(BAD);
      }
    }

    method FloatOp(w: u32) returns (flow: Flow)
      requires Valid()
      modifies r
      ensures Did(flow, Float(old(M()), w))
    {
      hide CtlSubOf, FpOp;
      if !FpOp(CtlSubOf(w)) { return Raises(BAD); }
      var s := fpu(w, r[..]);
      forall i | 0 <= i < 32 { r[i] := s[i]; }
      assert r[..] == s;
      flow := Onward;
    }

    /** The return address of a subroutine call. */
    method LinkTo(delayed: bool)
      requires Valid()
      modifies r
      ensures M() == Link(old(M()), delayed)
    {
      hide Wr;
      SetR(1, Wrap(pc + if delayed then 8 else 4));
    }

    /** br, bsr, bb0, bb1. */
    method BranchOp(w: u32) returns (flow: Flow)
      requires Valid() && 0x30 <= OpOf(w) <= 0x37
      modifies r
      ensures Did(flow, Branches(old(M()), w))
    {
      hide Link, Bit, OpOf, S1Of, DOf, Disp26, Disp16, Wrap;
      var op, delayed := OpOf(w), OpOf(w) % 2 == 1;
      if op <= 0x33 {
        if op >= 0x32 { LinkTo(delayed); }
        return Taken(Wrap(pc + Disp26(w) * 4), delayed);
      }
      var bit := Bit(Reg(S1Of(w)), DOf(w));
      flow := if bit == (op >= 0x36) then Taken(Wrap(pc + Disp16(w) * 4), delayed) else Onward;
    }

    method CondBranchOp(w: u32) returns (flow: Flow)
      requires Valid()
      ensures Did(flow, BranchCond(M(), w))
    {
      hide OpOf, S1Of, DOf, Disp16, Wrap, CondTrue;
      flow := Onward;
      if CondTrue(DOf(w), Reg(S1Of(w))) { flow := Taken(Wrap(pc + Disp16(w) * 4), OpOf(w) == 0x3B); }
    }

    /** Bit-field immediate forms, and the trap instructions among them. */
    method FieldOrTrapOp(w: u32) returns (flow: Flow)
      requires Valid()
      modifies r
      ensures Did(flow, FieldsAndTraps(old(M()), w))
    {
      hide SubOf, S1Of, DOf, VarOf, S2Of, CondTrue, Bit, Field, FieldResult;
      var sub, a := SubOf(w), Reg(S1Of(w));
      if sub == 0x34 || sub == 0x36 || sub == 0x3A {
        var fire := if sub == 0x34 then !Bit(a, DOf(w))
          else if sub == 0x36 then Bit(a, DOf(w)) else CondTrue(DOf(w), a);
        return if fire then Raises(w % 0x200) else Onward;
      }
      flow := PutField(DOf(w), Field(sub, a, VarOf(w), S2Of(w)));
    }

    /** jmp, jsr, rte and the find-bit forms. */
    method HighTriadicOp(w: u32) returns (flow: Flow)
      requires Valid() && SubOf(w) > 0x2A
      modifies r, cr
      ensures Did(flow, Triadic(old(M()), w))
    {
      hide SubOf, S1Of, S2Of, DOf, VarOf, HighBit, RteTarget, Link, Wr, MemOp, AluTriadic, Field, Result, FieldResult;
      var sub, b := SubOf(w), Reg(S2Of(w));
      if sub == 0x3A {
        SetR(DOf(w), HighBit(b));
        return Onward;
      }
      if sub == 0x3B {
        SetR(DOf(w), HighBit(Not32(b)));
        return Onward;
      }
      if 0x30 <= sub <= 0x33 {
        if sub >= 0x32 { LinkTo(sub % 2 == 1); }
        return Taken(b / 4 * 4, sub % 2 == 1);
      }
      if sub == 0x3F {
        ghost var was := cr[..];
        cr[1] := cr[2];
        RteReads(was, cr[..]);
        return Taken(RteTarget(cr[..]), false);
      }
      flow := Raises(BAD);
    }

    /** The register forms. */
    method TriadicOp(w: u32) returns (flow: Flow)
      requires Valid()
      modifies this`irqSource, this`deadline, this`armed, this`enabled, this`cmpWrites
      modifies r, cr, unit, unit.dataBank, unit.codeBank
      ensures Did(flow, Triadic(old(M()), w)) && (flow.Breaks? ==> K() == old(K()))
    {
      hide SubOf, S1Of, S2Of, DOf, VarOf, HighBit, RteTarget, Link, MemOp, AluTriadic, Field, Result;
      hide FieldResult, Wrap, Wr;
      var sub, d, a, b := SubOf(w), DOf(w), Reg(S1Of(w)), Reg(S2Of(w));
      if sub < 0x10 {
        flow := Memop(sub, d, Wrap(a + if VarOf(w) >= 0x10 then Wrap(b * SCALE[sub]) else b));
      } else if sub < 0x20 {
        flow := PutResult(d, AluTriadic(sub, a, b));
      } else if sub <= 0x2A {
        flow := PutField(d, Field(sub, a, VarOf(b), S2Of(b)));
      } else {
        flow := HighTriadicOp(w);
      }
    }

    /** Decode and execute; sequencing is left to the caller. */
    method ExecuteWord(w: u32) returns (flow: Flow)
      requires Valid()
      modifies this`irqSource, this`deadline, this`armed, this`enabled, this`cmpWrites
      modifies r, cr, unit, unit.dataBank, unit.codeBank
      ensures Did(flow, Execute(old(M()), w)) && (flow.Breaks? ==> K() == old(K()))
    {
      hide OpOf, DOf, S1Of, ImmOf, MemOp, AluImm, Control, Float, Branches, BranchCond, FieldsAndTraps;
      hide Triadic, Result, Wrap;
      var op := OpOf(w);
      if op < 0x10 {
        flow := Memop(op, DOf(w), Wrap(Reg(S1Of(w)) + ImmOf(w)));
      } else if op < 0x20 {
        flow := PutResult(DOf(w), AluImm(op, Reg(S1Of(w)), ImmOf(w)));
      } else if op == 0x20 {
        flow := ControlOp(w);
      } else if op == 0x21 {
        flow := FloatOp(w);
      } else if 0x30 <= op <= 0x37 {
        flow := BranchOp(w);
      } else if op == 0x3A || op == 0x3B {
        flow := CondBranchOp(w);
      } else if op == 0x3C {
        flow := FieldOrTrapOp(w);
      } else if op == 0x3D {
        flow := TriadicOp(w);
      } else {
        flow := Raises(BAD);
      }
    }

    /** The word at the pc, if its page is there. */
    method FetchWord() returns (w: u32)
      requires Valid()
      modifies unit`psr, unit`pc, unit`scratch, unit`fault, unit`misses, unit`missVa, unit`missPc
      modifies unit.dataBank, unit.codeBank
      ensures w == FetchedWord(old(M()))
      ensures M() == old(M()).(mmu := Fetch(old(M())).v, tlb := Fetch(old(M())).t)
    {
      hide Translate, R32;
      var pa := Xlat(pc, true);
      w := R32(unit.cfg.fold, unit.mem, pa);
    }

    /** Fetch, execute, sequence. */
    method Instruction() returns (rep: Report)
      requires Valid()
      modifies this`pc, this`pending, this`hasPending, this`count
      modifies this`irqSource, this`deadline, this`armed, this`enabled, this`cmpWrites
      modifies r, cr, unit, unit.dataBank, unit.codeBank
      ensures Reported(rep, Cpu.Instruction(old(M()))) && (rep == Crash ==> K() == old(K()))
    {
      hide Fetch, FetchedWord, Finish;
      var w := FetchWord();
      if unit.fault.pending { return NoTrap; }
      count := count + 1;
      rep := Complete(w);
    }

    method Complete(w: u32) returns (rep: Report)
      requires Valid()
      modifies this`pc, this`pending, this`hasPending
      modifies this`irqSource, this`deadline, this`armed, this`enabled, this`cmpWrites
      modifies r, cr, unit, unit.dataBank, unit.codeBank
      ensures Reported(rep, Finish(old(M()), w, old(pc))) && (rep == Crash ==> K() == old(K()))
    {
      hide Execute, Sequence;
      var flow := ExecuteWord(w);
      match flow {
        case Breaks => rep := Crash;
        case Raises(vector) => rep := TrapAt(vector, pc);
        case _ =>
          rep := NoTrap;
          if !unit.fault.pending { Advance(flow); }
      }
    }

    /** Delay slots are explicit: a pending branch wins over whatever the slot did. */
    method Advance(flow: Flow)
      requires Valid() && (flow.Onward? || flow.Taken?)
      modifies this`pc, this`pending, this`hasPending
      ensures M() == old(M()).(core :=
        Sequence(old(C()), if flow.Onward? then Next else Jump(flow.target, flow.delayed)))
    {
      if hasPending {
        hasPending := false;
        pc := pending;
      } else if flow.Taken? {
        if flow.delayed {
          pending, hasPending := flow.target, true;
          pc := Wrap(pc + 4);
        } else {
          pc := flow.target;
        }
      } else {
        pc := Wrap(pc + 4);
      }
    }

    /** What a step reports is the outcome it should have had. */
    ghost predicate Reported(rep: Report, o: Outcome)
      requires Valid()
      reads this, unit, unit.dataBank, unit.codeBank, r, cr
    {
      match o
      case Done(m) => rep == NoTrap && M() == m
      case Trapped(m, vector, tpc) => rep == TrapAt(vector, tpc) && M() == m
      case Crashed => rep == Crash
    }

    // --- exception entry --------------------------------------------------------------

    /** Save PSR and pipeline, enter the exception state, vector through VBR. */
    method VectorEntry(xip: u32, nip: u32, fip: u32, vector: nat)
      requires Valid()
      modifies this`pc, cr
      ensures C() == Vectored(old(C()), xip, nip, fip, vector)
    {
      hide ExceptionPsr, MarkValid;
      cr[2] := cr[1];
      cr[4] := xip;
      cr[5] := MarkValid(nip);
      cr[6] := MarkValid(fip);
      cr[1] := ExceptionPsr(cr[1]);
      pc := Wrap(cr[7] + vector * 8);
    }

    method EmptyPipe()
      requires Valid()
      modifies cr
      ensures C() == ClearDataPipe(old(C()))
    {
      cr[14] := 0;
      cr[11] := cr[14];
      cr[8] := cr[11];
    }

    method Exception(vector: nat)
      requires Valid()
      modifies this`pc, cr
      ensures C() == DeliverException(old(C()), vector)
    {
      hide Vectored, ClearDataPipe;
      ghost var was := C();
      EmptyPipe();
      PipeKeepsPc(was);
      VectorEntry(pc, pc, Wrap(pc + 4), vector);
    }

    method TrapEntry(vector: nat, tpc: u32)
      requires Valid()
      modifies this`pc, this`hasPending, cr
      ensures C() == DeliverTrap(old(C()), vector, tpc)
    {
      hide Vectored;
      VectorEntry(tpc, Wrap(tpc + 4), Wrap(tpc + 8), vector);
      hasPending := false;
    }

    /** Describe the one outstanding data access, if the fault was one. */
    method DataPipeEntry(f: Fault)
      requires Valid()
      modifies cr
      ensures C() == DataPipe(old(C()), f)
    {
      hide ByteEnable;
      EmptyPipe();
      if !f.code {
        cr[8] := 1 + (if f.write then 2 else 0) + ByteEnable(f.width, f.va);
        cr[9] := 0;
        cr[10] := f.va;
      }
    }

    /** Fault address and status registers of the side that missed. */
    method FaultStatus(f: Fault)
      requires Valid()
      modifies unit`mem
      ensures unit.V() == FaultRegisters(old(unit.V()), f)
    {
      hide W32;
      var base := if f.code then CODE_CMMU else DATA_CMMU;
      unit.mem := W32(unit.cfg.fold, unit.mem, base + PFAR, f.va);
      unit.mem := W32(unit.cfg.fold, unit.mem, base + PFSR, 0x5_0000);
    }

    method FaultVector(f: Fault)
      requires Valid()
      modifies this`pc, this`hasPending, cr
      ensures C() == DeliverFault(old(C()), f)
    {
      hide Vectored, DataPipe, Wrap;
      ghost var was := C();
      DataPipeEntry(f);
      DataPipeKeepsPc(was, f);
      VectorEntry(pc, pc, Wrap(pc + 4), if f.code then 2 else 3);
      hasPending := false;
    }

    /** Hand the pending page fault to the kernel. */
    method FaultEntry()
      requires Valid() && unit.fault.pending
      modifies this`pc, this`hasPending, cr, unit`fault, unit`mem
      ensures M() == TakeFault(old(M()))
    {
      hide FaultRegisters, DeliverFault;
      unit.fault := unit.fault.(pending := false);
      var f := unit.fault;
      FaultStatus(f);
      FaultVector(f);
    }

    // --- interrupt gates ----------------------------------------------------------------

    /** Enabled, not in a delay slot, not masked by the PSR, a vector table, no fault
        waiting, no kernel call running. */
    method Open() returns (open: bool)
      requires Valid()
      ensures open == GateOpen(M())
    {
      open := irq && sysmode && !hasPending && cr[1] / 2 % 2 == 0 && cr[7] >= KOFF && !unit.fault.pending && !inKcall;
    }

    method MaskBit(bit: nat) returns (on: bool)
      requires Valid() && bit > 0
      ensures on == Unmasked(M(), bit)
    {
      hide R32;
      on := R32(unit.cfg.fold, unit.mem, IRQ_MASK) / bit % 2 == 1;
    }

    /** Read a kernel word through translation. */
    method PeekWord(va: u32) returns (w: u32)
      requires Valid()
      modifies unit`psr, unit`pc, unit`scratch, unit`fault, unit`misses, unit`missVa, unit`missPc
      modifies unit.dataBank, unit.codeBank
      ensures (w, M()) == Peek(old(M()), va)
    {
      hide Translate, R32;
      var pa := Xlat(va, false);
      w := R32(unit.cfg.fold, unit.mem, pa);
    }

    /** The level-triggered software-interrupt line. */
    method SoftGate() returns (taken: bool)
      requires Valid()
      modifies this`nextSoft, this`softTicks, this`irqSource, this`pc, cr
      modifies unit`psr, unit`pc, unit`scratch, unit`fault, unit`misses, unit`missVa, unit`missPc
      modifies unit.dataBank, unit.codeBank
      ensures taken == SoftFires(old(M()))
      ensures M() == if taken then TakeSoft(old(M())) else AfterSoft(old(M()))
    {
      hide Peek, SoftTaken, GateOpen, Unmasked, AboveLevel;
      taken := false;
      var open := Open();
      if !open { return; }
      var on := MaskBit(0x20);
      if !on { return; }
      var spl := PeekWord(SPL_LEVEL);
      var pend := PeekWord(SOFTINT_PENDING);
      if AboveLevel(spl, pend) && count >= nextSoft {
        FireSoft();
        taken := true;
      }
    }

    method SoftCounted()
      modifies this`nextSoft, this`softTicks, this`irqSource
      ensures K() == SoftClock(old(K()), count)
    {
      nextSoft, softTicks, irqSource := count + softPeriod, softTicks + 1, IRQ_SOFTINT;
    }

    method FireSoft()
      requires Valid()
      modifies this`nextSoft, this`softTicks, this`irqSource, this`pc, cr
      ensures M() == SoftTaken(old(M()))
    {
      hide DeliverException, SoftClock;
      SoftCounted();
      Exception(1);
    }

    method HardCounted(pend: u32)
      modifies this`nextClock, this`armed, this`ticks, this`irqSource
      ensures K() == HardClock(old(K()), count, pend)
    {
      nextClock, armed, ticks := count + period, false, ticks + 1;
      irqSource := if pend != 0 then IRQ_HARDCLOCK + IRQ_SOFTINT else IRQ_HARDCLOCK;
    }

    method FireHard(pend: u32)
      requires Valid()
      modifies this`nextClock, this`armed, this`ticks, this`irqSource, this`pc, cr
      ensures M() == HardTaken(old(M()), pend)
    {
      hide DeliverException, HardClock;
      HardCounted(pend);
      Exception(1);
    }

    /** Whether the deadline has come. */
    method Due() returns (due: bool)
      requires Valid()
      ensures due == HardDue(M())
    {
      hide Signed;
      if tickDiv != 0 {
        due := armed && Signed(Wrap(Wrap(count / tickDiv) - deadline)) >= 0;
      } else {
        due := count >= nextClock;
      }
    }

    /** The deadline comparator. */
    method HardGate() returns (taken: bool)
      requires Valid()
      modifies this`nextClock, this`armed, this`ticks, this`irqSource, this`pc, cr
      modifies unit`psr, unit`pc, unit`scratch, unit`fault, unit`misses, unit`missVa, unit`missPc
      modifies unit.dataBank, unit.codeBank
      ensures taken == HardFires(old(M()))
      ensures M() == if taken then TakeHard(old(M())) else old(M())
    {
      hide Peek, HardTaken, GateOpen, Unmasked, HardDue;
      taken := false;
      var open := Open();
      if !open { return; }
      var due := Due();
      var on := MaskBit(0x40);
      if due && on {
        var pend := PeekWord(SOFTINT_PENDING);
        FireHard(pend);
        taken := true;
      }
    }

    /** `step`: the soft gate, the hard gate, then an instruction. */
    method Step() returns (rep: Report)
      requires Valid()
      modifies this, r, cr, unit, unit.dataBank, unit.codeBank
      ensures Valid() && inKcall == old(inKcall)
      ensures Reported(rep, Driver.Step(old(M()))) && (rep == Crash ==> K() == old(K()))
    {
      hide Cpu.Instruction, SoftFires, HardFires, TakeSoft, TakeHard, AfterSoft;
      Runs.AfterSoftKeeps(M());
      var taken := SoftGate();
      if taken { return NoTrap; }
      taken := HardGate();
      if taken { return NoTrap; }
      rep := Instruction();
    }

    /** One turn of the driver loop; false when the machine stops. */
    method Turn() returns (running: bool)
      requires Valid()
      modifies this, r, cr, unit, unit.dataBank, unit.codeBank
      ensures Valid()
      ensures match Loop(old(M()))
        case Ran(m) => running && M() == m
        case Halted(m, _) => !running && M() == m
        case Broken => !running
    {
      hide Driver.Step, DeliverTrap, TakeFault;
      if unit.fault.pending {
        FaultEntry();
        return true;
      }
      var rep := Step();
      match rep {
        case NoTrap => running := true;
        case Crash => running := false;
        case TrapAt(vector, tpc) =>
          running := vector != BAD && cr[7] >= KOFF;
          if running { TrapEntry(vector, tpc); }
      }
    }

    /** The driver loop, for a number of turns or until the machine stops. */
    method Run(limit: nat) returns (running: bool)
      requires Valid()
      modifies this, r, cr, unit, unit.dataBank, unit.codeBank
      ensures Valid()
      ensures match Laps(old(M()), limit)
        case Ran(m) => running && M() == m
        case Halted(m, _) => !running && M() == m
        case Broken => !running
      ensures running && ClockRuns.Reset(old(K())) ==> ticks <= cmpWrites + 1
      ensures running && Runs.WordAligned(old(C())) && Runs.AlignedBase(old(M()), limit) ==> Runs.WordAligned(C())
      ensures running && old(unit.T()) == EmptyTlb() && CacheRuns.Steady(old(M()), iset{}, limit) ==>
        CacheRuns.EndsAs(M(), CacheRuns.UncachedLaps(old(M()), limit))
    {
      hide Loop, Laps, Runs.LapStates, Runs.WordAligned, Runs.AlignedBase, ClockRuns.Reset;
      hide CacheRuns.Steady, CacheRuns.UncachedLaps, EmptyTlb;
      ghost var m0 := M();
      running := true;
      var n := 0;
      while n < limit && running
        invariant n <= limit && Valid()
        invariant running ==> Laps(m0, limit) == Laps(M(), limit - n)
        invariant !running ==> match Laps(m0, limit)
          case Ran(_) => false case Halted(m, _) => M() == m case Broken => true
      {
        LapsStep(M(), limit - n);
        running := Turn();
        n := n + 1;
      }
      if running {
        LapsBegin(M(), 0);
        if ClockRuns.Reset(m0.clk) { ClockRuns.LapsClock(m0, limit); }
        if Runs.WordAligned(m0.core) && Runs.AlignedBase(m0, limit) { Runs.LapsAligned(m0, limit); }
        if m0.tlb == EmptyTlb() && CacheRuns.Steady(m0, iset{}, limit) { CacheRuns.LapsFromReset(m0, limit); }
      }
    }

    // --- kernel calls from outside ----------------------------------------------------

    /** Arguments, return address and entry point; no branch pending. */
    method Enter(fn: u32, a2: u32, a3: u32, a4: u32, a5: u32, a6: u32)
      requires Valid()
      modifies this`pc, this`hasPending, r
      ensures C() == KcallCore(old(C()), fn, a2, a3, a4, a5, a6)
    {
      hide Wr;
      SetR(1, KCALL_RET);
      SetR(2, a2);
      SetR(3, a3);
      SetR(4, a4);
      SetR(5, a5);
      SetR(6, a6);
      pc, hasPending := fn, false;
    }

    /** Put a saved processor back. */
    method Reinstate(c: Core)
      requires Valid()
      modifies this`pc, this`pending, this`hasPending, this`count, r, cr
      ensures C() == c
    {
      forall i | 0 <= i < 32 { r[i] := c.r[i]; }
      forall i | 0 <= i < 64 { cr[i] := c.cr[i]; }
      assert r[..] == c.r && cr[..] == c.cr;
      pc, pending, hasPending, count := c.pc, c.pending, c.hasPending, c.count;
    }

    /** Run a function already entered to its return, to a trap or to the limit. */
    method RunCalled() returns (crashed: bool)
      requires Valid() && inKcall
      modifies this, r, cr, unit, unit.dataBank, unit.codeBank
      ensures Valid() && inKcall && ClockRuns.Programs(old(K()), K())
      ensures match Called(old(M()), KCALL_LIMIT) case None => crashed case Some(m) => M() == m && !crashed
    {
      hide Driver.Step, ClockRuns.Programs;
      ClockRuns.ProgramsSelf(K());
      var guard := 0;
      var trapped := false;
      crashed := false;
      while pc != KCALL_RET && guard < KCALL_LIMIT && !trapped
        invariant guard <= KCALL_LIMIT && inKcall && Valid()
        invariant ClockRuns.Programs(old(K()), K())
        invariant crashed ==> Called(old(M()), KCALL_LIMIT) == None && trapped
        invariant !crashed && !trapped ==> Called(old(M()), KCALL_LIMIT) == Called(M(), KCALL_LIMIT - guard)
        invariant !crashed && trapped ==> Called(old(M()), KCALL_LIMIT) == Some(M())
        decreases KCALL_LIMIT - guard
      {
        guard := guard + 1;
        KcallStep(M());
        ghost var before := K();
        var rep := Step();
        if rep == Crash { ClockRuns.ProgramsSelf(before); }
        ProgramsTransitive(old(K()), before, K());
        crashed := rep == Crash;
        trapped := rep != NoTrap;
      }
    }

    /** Call a kernel function from outside: the processor comes back exactly as
        it was, memory keeps what the function did, and no interrupt can have
        been taken inside.  The result is the function's, or all ones if it did
        not come back. */
    method Kcall(fn: u32, a2: u32, a3: u32, a4: u32, a5: u32, a6: u32) returns (ret: u32)
      requires Valid()
      modifies this, r, cr, unit, unit.dataBank, unit.codeBank
      ensures Valid() && C() == old(C()) && inKcall == old(inKcall)
      ensures ClockRuns.Programs(old(K()), K()) && ticks == old(ticks) && softTicks == old(softTicks)
      ensures match Called(KcallEntry(old(M()), fn, a2, a3, a4, a5, a6), KCALL_LIMIT)
        case None => true
        case Some(m) =>
          M() == m.(core := old(C()), inKcall := old(inKcall)) &&
          ret == if m.core.pc == KCALL_RET then Rr(m.core, 2) else 0xFFFF_FFFF
    {
      hide Driver.Step, KcallCore, ClockRuns.Programs, Called;
      var wasIn := inKcall;
      var save := Core(r[..], cr[..], pc, pending, hasPending, count);
      inKcall := true;
      Enter(fn, a2, a3, a4, a5, a6);
      assert M() == KcallEntry(old(M()), fn, a2, a3, a4, a5, a6);
      var crashed := RunCalled();
      inKcall := wasIn;
      ret := if pc == KCALL_RET then Reg(2) else 0xFFFF_FFFF;
      Reinstate(save);
      ProgramsKeepTicks(old(K()), K());
    }
  }

  lemma LapsBegin(m: Machine, limit: nat)
    ensures limit == 0 ==> Laps(m, limit) == Ran(m)
  {
  }

  lemma LapsStep(m: Machine, limit: nat)
    requires limit > 0
    ensures Laps(m, limit) == match Loop(m) case Ran(m1) => Laps(m1, limit - 1) case o => o
  {
    hide Loop;
  }

  const KCALL_LIMIT: nat := 30_000_000

  function KcallCore(c: Core, fn: u32, a2: u32, a3: u32, a4: u32, a5: u32, a6: u32): Core {
    Wr(Wr(Wr(Wr(Wr(Wr(c, 1, KCALL_RET), 2, a2), 3, a3), 4, a4), 5, a5), 6, a6).(pc := fn, hasPending := false)
  }

  function KcallEntry(m: Machine, fn: u32, a2: u32, a3: u32, a4: u32, a5: u32, a6: u32): Machine {
    m.(core := KcallCore(m.core, fn, a2, a3, a4, a5, a6), inKcall := true)
  }

  /** A kernel function run to its return address, to a trap or to the limit;
      None if the emulator itself breaks on an instruction. */
  function Called(m: Machine, limit: nat): Option<Machine>
    decreases limit
  {
    if m.core.pc == KCALL_RET || limit == 0 then Some(m) else
    match Driver.Step(m)
    case Done(m') => Called(m', limit - 1)
    case Trapped(m', _, _) => Some(m')
    case Crashed => None
  }

  lemma ProgramsTransitive(a: Clock, b: Clock, c: Clock)
    requires ClockRuns.Programs(a, b) && ClockRuns.Programs(b, c)
    ensures ClockRuns.Programs(a, c)
  {
  }

  lemma ProgramsKeepTicks(a: Clock, b: Clock)
    requires ClockRuns.Programs(a, b)
    ensures a.ticks == b.ticks && a.softTicks == b.softTicks
  {
  }

  lemma DataPipeKeepsPc(c: Core, f: Fault)
    ensures DataPipe(c, f).pc == c.pc
  {
  }

  lemma PipeKeepsPc(c: Core)
    ensures ClearDataPipe(c).pc == c.pc
  {
  }

  /** The pipeline registers are not the one rte has just written. */
  lemma RteReads(cr: CtlFile, cr': CtlFile)
    requires cr' == cr[1 := cr[2]]
    ensures RteTarget(cr') == RteTarget(cr)
  {
  }

  lemma WriteFields(m: Machine, a: u32, val: u32)
    ensures var n := DevWrite32(m, a, val);
      n.sysmode == m.sysmode && n.tcsMbox == m.tcsMbox && n.fpu == m.fpu && n.inKcall == m.inKcall
  {
    hide W32, StoreWord, TcsPoke;
  }

  lemma TransferFields(m: Machine, sub: Sub6, d: Reg5, pa: u32)
    requires sub < 0x0C && !PairOverrun(sub, d)
    ensures var n := Transfer(m, sub, d, pa);
      n.sysmode == m.sysmode && n.tcsMbox == m.tcsMbox && n.fpu == m.fpu && n.inKcall == m.inKcall
  {
    hide R32, R16, R8, W32, W16, W8, SignExtend8, SignExtend16, TcsPoke, DevWrite32;
    var v := Rr(m.core, d);
    WriteFields(m, pa, v);
    if sub == 0x08 { WriteFields(DevWrite32(m, pa, v), Wrap(pa + 4), Rr(m.core, d + 1)); }
  }

  lemma MemOpFields(m: Machine, sub: Sub6, d: Reg5, ea: u32)
    requires sub < 0x10
    ensures var e := MemOp(m, sub, d, ea);
      e.Ok? ==> e.m.sysmode == m.sysmode && e.m.tcsMbox == m.tcsMbox && e.m.fpu == m.fpu && e.m.inKcall == m.inKcall
  {
    hide Translate, Transfer;
    if sub < 0x0C && !PairOverrun(sub, d) {
      var a := Translate(Sync(m).(xlatWrite := Writes(sub)), m.tlb, ea, false);
      TransferFields(m.(mmu := a.v.(xlatWrite := false), tlb := a.t), sub, d, a.pa);
    }
  }

  lemma ExecuteFields(m: Machine, w: u32)
    ensures var e := Execute(m, w);
      !e.Stuck? ==> e.m.sysmode == m.sysmode && e.m.tcsMbox == m.tcsMbox && e.m.fpu == m.fpu && e.m.inKcall == m.inKcall
  {
    hide AluImm, AluTriadic, Field, OpOf, DOf, S1Of, S2Of, ImmOf, SubOf, VarOf, CtlSubOf, CrOf, MemOp;
    hide CondTrue, Disp16, Disp26, HighBit, Bit, RteTarget, FpOp;
    var a, b := Rr(m.core, S1Of(w)), Rr(m.core, S2Of(w));
    if OpOf(w) < 0x10 {
      MemOpFields(m, OpOf(w), DOf(w), Wrap(a + ImmOf(w)));
      ClockRuns.NoMemTrap(m, OpOf(w), DOf(w), Wrap(a + ImmOf(w)));
    } else if OpOf(w) == 0x3D && SubOf(w) < 0x10 {
      var ea := Wrap(a + if VarOf(w) >= 0x10 then Wrap(b * SCALE[SubOf(w)]) else b);
      MemOpFields(m, SubOf(w), DOf(w), ea);
      ClockRuns.NoMemTrap(m, SubOf(w), DOf(w), ea);
    }
  }

  /** Inside a kernel call a step is an instruction and nothing else. */
  lemma KcallStep(m: Machine)
    requires m.inKcall
    ensures Driver.Step(m) == Cpu.Instruction(m)
    ensures var o := Driver.Step(m);
      o.Done? || o.Trapped? ==> ClockRuns.Programs(m.clk, o.m.clk) && o.m.inKcall
  {
    hide Cpu.Instruction, SoftPeek, Unmasked, HardDue;
    ClockRuns.InstructionPrograms(m);
    InstructionFields(m);
  }

  lemma InstructionFields(m: Machine)
    ensures var o := Cpu.Instruction(m); o.Done? || o.Trapped? ==> o.m.inKcall == m.inKcall
  {
    hide Execute, Translate, R32;
    ExecuteFields(Issued(m), FetchedWord(m));
  }
}
