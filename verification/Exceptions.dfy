/** Exceptions come back.  Handlers that save and restore EPSR and the three
    pipeline registers return the interrupted program to its PSR and to the
    right instruction, at any depth of nesting; a page fault restarts its
    instruction from the state it was first tried in. */
module Exceptions {
  import opened Words
  import opened Memory
  import opened Mmu
  import opened Cpu
  import opened Driver

  datatype Kind = Interrupt(vector: nat) | PageFault(fault: Fault) | TrapInsn(vector: nat)

  function Enter(c: Core, k: Kind): Core {
    match k
    case Interrupt(v) => DeliverException(c, v)
    case PageFault(f) => DeliverFault(c, f)
    case TrapInsn(v) => DeliverTrap(c, v, c.pc)
  }

  /** Interrupted and faulting instructions run (again); a trap is behind us. */
  function Resume(k: Kind, pc: u32): u32 { if k.TrapInsn? then Wrap(pc + 4) else pc }

  /** What a handler must put back before its rte. */
  datatype Saved = Saved(epsr: u32, xip: u32, nip: u32, fip: u32)

  function SavedOf(c: Core): Saved { Saved(c.cr[2], c.cr[4], c.cr[5], c.cr[6]) }

  function Restore(c: Core, f: Saved): Core { c.(cr := c.cr[2 := f.epsr][4 := f.xip][5 := f.nip][6 := f.fip]) }

  lemma MarkedTarget(x: u32)
    ensures MarkValid(x) / 2 % 2 == 1 && MarkValid(x) / 4 * 4 == x / 4 * 4
  {
    var q, r := x / 4, x % 4;
    DivModUnique(x, 2, 2 * q + r / 2, r % 2);
    DivModUnique(x + 2, 2, 2 * q + r / 2 + 1, r % 2);
    if r < 2 { DivModUnique(x + 2, 4, q, r + 2); }
  }

  /** The registers an entry leaves, whatever it did to the data pipeline. */
  lemma EntryFrame(c: Core, k: Kind)
    ensures SavedOf(Enter(c, k)) ==
      if k.TrapInsn? then Saved(c.cr[1], c.pc, MarkValid(Wrap(c.pc + 4)), MarkValid(Wrap(c.pc + 8)))
      else Saved(c.cr[1], c.pc, MarkValid(c.pc), MarkValid(Wrap(c.pc + 4)))
  {
    hide MarkValid, ExceptionPsr, ByteEnable;
  }

  predicate IsRte(w: u32) { OpOf(w) == 0x3D && SubOf(w) == 0x3F }

  /** The step function runs an rte word as `Rte` says. */
  lemma RteWord(m: Machine, w: u32)
    requires IsRte(w)
    ensures var e := Execute(m, w); e.Ok? && Sequence(e.m.core, e.br) == Rte(m.core) && e.m == m.(core := e.m.core)
  {
    hide RteTarget;
  }

  lemma RteInstruction(m: Machine)
    requires !Fetch(m).v.fault.pending && IsRte(FetchedWord(m))
    ensures Instruction(m) == Done(Issued(m).(core := Rte(Issued(m).core)))
  {
    hide Translate, R32, Execute, Sequence, Rte, IsRte;
    RteWord(Issued(m), FetchedWord(m));
  }

  /** rte with the entry's frame in place: PSR restored always.  The resumption
      address is the right one exactly for word-aligned pcs; in a delay slot it
      is the pending branch's whatever the frame says. */
  lemma RteResumes(c: Core, k: Kind, h: Core)
    requires SavedOf(h) == SavedOf(Enter(c, k))
    ensures Rte(h).cr == h.cr[1 := c.cr[1]] && Rte(h).r == h.r && !Rte(h).hasPending
    ensures !h.hasPending ==> (Rte(h).pc == Resume(k, c.pc) <==> c.pc % 4 == 0)
    ensures h.hasPending ==> Rte(h).pc == h.pending
  {
    hide Enter, MarkValid;
    EntryFrame(c, k);
    MarkedTarget(c.pc);
    MarkedTarget(Wrap(c.pc + 4));
    AlignedNext(c.pc);
  }

  lemma AlignedNext(pc: u32)
    ensures pc / 4 * 4 == pc <==> pc % 4 == 0
    ensures pc % 4 == 0 ==> Wrap(pc + 4) / 4 * 4 == Wrap(pc + 4) && pc / 2 % 2 == 0
    ensures pc % 4 != 0 ==> Wrap(pc + 4) / 4 * 4 != Wrap(pc + 4) && pc / 4 * 4 != Wrap(pc + 4)
  {
    var q, r := pc / 4, pc % 4;
    var q' := if q + 1 == 0x4000_0000 then 0 else q + 1;
    DivModUnique(pc + 4, TWO32, if q' == 0 then 1 else 0, 4 * q' + r);
    DivModUnique(4 * q' + r, 4, q', r);
    DivModUnique(pc, 2, 2 * q + r / 2, r % 2);
  }

  // --- nesting --------------------------------------------------------------------

  /** What a processor with a stack of saved frames does. */
  datatype Op = Take(k: Kind) | Save | Work(c: Core) | Reload | Return

  datatype State = State(c: Core, stack: seq<Saved>)

  function Do(s: State, op: Op): Option<State> {
    match op
    case Take(k) => Some(s.(c := Enter(s.c, k)))
    case Save => Some(s.(stack := s.stack + [SavedOf(s.c)]))
    case Work(c) => Some(s.(c := c))
    case Reload =>
      if s.stack == [] then None
      else Some(State(Restore(s.c, s.stack[|s.stack| - 1]), s.stack[..|s.stack| - 1]))
    case Return => Some(s.(c := Rte(s.c)))
  }

  function Play(s: State, ops: seq<Op>): Option<State>
    decreases |ops|
  {
    if ops == [] then Some(s) else
    match Do(s, ops[0]) case None => None case Some(s') => Play(s', ops[1..])
  }

  /** Well-nested activity: arbitrary computation, and exceptions whose handlers
      are themselves well-nested. */
  datatype Act = Compute(c: Core) | Handled(k: Kind, body: seq<Act>)

  function Ops(acts: seq<Act>): seq<Op> {
    if acts == [] then [] else
    (match acts[0]
     case Compute(c) => [Work(c)]
     case Handled(k, body) => [Take(k), Save] + Ops(body) + [Reload, Return])
    + Ops(acts[1..])
  }

  /** The core after an activity, with every handler summed up as: it may leave
      anything behind, but PSR, pc and saved registers are the entry's. */
  function After(c: Core, acts: seq<Act>): Core
    decreases acts
  {
    if acts == [] then c else
    match acts[0]
    case Compute(c') => After(c', acts[1..])
    case Handled(k, body) => After(Back(c, k, After(Enter(c, k), body)), acts[1..])
  }

  function Back(c: Core, k: Kind, h: Core): Core {
    var r := Restore(h, SavedOf(Enter(c, k)));
    r.(cr := r.cr[1 := c.cr[1]], pc := Resume(k, c.pc))
  }

  /** Exceptions are taken at word-aligned instructions, and no handler's rte is
      in a delay slot. */
  ghost predicate Aligned(c: Core, acts: seq<Act>)
    decreases acts
  {
    acts == [] ||
    match acts[0]
    case Compute(c') => Aligned(c', acts[1..])
    case Handled(k, body) =>
      c.pc % 4 == 0 && Aligned(Enter(c, k), body) && !After(Enter(c, k), body).hasPending &&
        Aligned(Back(c, k, After(Enter(c, k), body)), acts[1..])
  }

  lemma {:induction false} PlayConcat(s: State, a: seq<Op>, b: seq<Op>)
    ensures Play(s, a + b) == match Play(s, a) case None => None case Some(s') => Play(s', b)
    decreases |a|
  {
    hide Do;
    if a == [] {
      assert a + b == b;
    } else {
      assert (a + b)[0] == a[0] && (a + b)[1..] == a[1..] + b;
      match Do(s, a[0]) {
        case None =>
        case Some(s') => PlayConcat(s', a[1..], b);
      }
    }
  }

  lemma HandlerReturns(c: Core, k: Kind, h: Core, stack: seq<Saved>)
    requires c.pc % 4 == 0 && !h.hasPending
    ensures Play(State(h, stack + [SavedOf(Enter(c, k))]), [Reload, Return]) == Some(State(Back(c, k, h), stack))
  {
    hide Enter, RteTarget;
    var f := SavedOf(Enter(c, k));
    var full := stack + [f];
    assert full[|full| - 1] == f && full[..|full| - 1] == stack;
    var r := Restore(h, f);
    assert Do(State(h, full), Reload) == Some(State(r, stack));
    assert [Reload, Return][1..] == [Return] && [Return][1..] == [];
    RteResumes(c, k, r);
    assert Play(State(r, stack), [Return]) == Play(State(Rte(r), stack), []);
  }

  /** Any well-nested run of interrupts, faults and traps with saving handlers
      leaves the stack as it found it and brings back, at every level, the PSR
      and the resumption address. */
  lemma {:induction false} NestedExceptionsReturn(c: Core, stack: seq<Saved>, acts: seq<Act>)
    requires Aligned(c, acts)
    ensures Play(State(c, stack), Ops(acts)) == Some(State(After(c, acts), stack))
    decreases acts
  {
    hide Enter, Back, Restore, Do;
    if acts == [] {
    } else {
      var rest := Ops(acts[1..]);
      match acts[0] {
        case Compute(c') =>
          PlayConcat(State(c, stack), [Work(c')], rest);
          WorkPlays(c, c', stack);
          NestedExceptionsReturn(c', stack, acts[1..]);
        case Handled(k, body) =>
          var e := Enter(c, k);
          var s0, s1 := State(c, stack), State(e, stack + [SavedOf(e)]);
          var ops := [Take(k), Save] + Ops(body) + [Reload, Return];
          EntrySaves(c, stack, k);
          PlayConcat(s0, [Take(k), Save], Ops(body));
          NestedExceptionsReturn(e, stack + [SavedOf(e)], body);
          PlayConcat(s0, [Take(k), Save] + Ops(body), [Reload, Return]);
          HandlerReturns(c, k, After(e, body), stack);
          PlayConcat(s0, ops, rest);
          NestedExceptionsReturn(Back(c, k, After(e, body)), stack, acts[1..]);
      }
    }
  }

  lemma PlayOne(s: State, op: Op)
    ensures Play(s, [op]) == Do(s, op)
  {
    hide Do;
    assert [op][1..] == [];
    if Do(s, op).Some? { assert Play(Do(s, op).value, []) == Do(s, op); }
  }

  lemma WorkPlays(c: Core, c': Core, stack: seq<Saved>)
    ensures Play(State(c, stack), [Work(c')]) == Some(State(c', stack))
  {
    PlayOne(State(c, stack), Work(c'));
  }

  lemma EntrySaves(c: Core, stack: seq<Saved>, k: Kind)
    ensures Play(State(c, stack), [Take(k), Save]) == Some(State(Enter(c, k), stack + [SavedOf(Enter(c, k))]))
  {
    hide Enter;
    assert [Take(k), Save][1..] == [Save];
    PlayOne(State(Enter(c, k), stack), Save);
  }

  function Traps(acts: seq<Act>): nat {
    if acts == [] then 0 else (if acts[0].Handled? && acts[0].k.TrapInsn? then 1 else 0) + Traps(acts[1..])
  }

  /** Seen from the program between two of its own instructions: exceptions only
      step it over its traps. */
  lemma {:induction false} ProgramUndisturbed(c: Core, acts: seq<Act>)
    requires Aligned(c, acts) && forall a :: a in acts ==> a.Handled?
    ensures After(c, acts).cr[1] == c.cr[1] && After(c, acts).pc == Wrap(c.pc + 4 * Traps(acts))
    decreases |acts|
  {
    hide Enter;
    if acts == [] {
    } else {
      var a := acts[0];
      assert a in acts;
      var c' := Back(c, a.k, After(Enter(c, a.k), a.body));
      ProgramUndisturbed(c', acts[1..]);
      WrapSteps(c.pc, if a.k.TrapInsn? then 1 else 0, Traps(acts[1..]));
    }
  }

  lemma WrapSteps(pc: u32, a: nat, b: nat)
    ensures Wrap(Wrap(pc + 4 * a) + 4 * b) == Wrap(pc + 4 * (a + b))
    ensures a == 0 ==> Wrap(pc + 4 * a) == pc
  {
    WrapAdd(pc + 4 * a, 4 * b);
  }

  // --- what a fault tells the kernel --------------------------------------------------

  /** The byte lanes enabled are exactly the bytes of an aligned access. */
  lemma LanesExact(width: int, va: u32, i: nat)
    requires i < 4 && (width == 1 || (width == 2 && va % 2 == 0) || (width == 4 && va % 4 == 0))
    ensures Bit(ByteEnable(width, va), 5 - i) <==> va % 4 <= i < va % 4 + width
  {
    assert Pow2(2) == 4 && Pow2(3) == 8 && Pow2(4) == 16 && Pow2(5) == 32;
    var q, r := va / 4, va % 4;
    DivModUnique(va, 2, 2 * q + r / 2, r % 2);
  }

  /** The data pipeline is empty after an interrupt or a fetch fault; after a data
      fault it holds one valid transaction with the access's address, direction
      and lanes. */
  lemma FaultDescribed(c: Core, f: Fault)
    ensures DeliverFault(c, f).cr[11] == 0 && DeliverFault(c, f).cr[14] == 0
    ensures f.code ==> DeliverFault(c, f).cr[8] == 0
    ensures !f.code ==> var t := DeliverFault(c, f).cr[8];
      DeliverFault(c, f).cr[9] == 0 && DeliverFault(c, f).cr[10] == f.va &&
        t % 2 == 1 && (t / 2 % 2 == 1 <==> f.write) && t / 4 == ByteEnable(f.width, f.va) / 4
  {
    hide MarkValid, ExceptionPsr;
  }

  /** Every entry is to supervisor mode with interrupts off and shadow registers
      frozen, and keeps every other bit of the PSR. */
  lemma EntryMode(c: Core, k: Kind, i: nat)
    ensures Bit(Enter(c, k).cr[1], i) <==> Bit(c.cr[1], i) || i == 0 || i == 1 || i == 31
  {
    hide MarkValid, ByteEnable, Or, Bit;
    OrBit(c.cr[1], 0x8000_0003, i);
    EntryBits(i);
  }

  lemma EntryBits(i: nat)
    ensures Bit(0x8000_0003, i) <==> i == 0 || i == 1 || i == 31
  {
    if i > 1 {
      hide Bit, Pow2;
      Power29();
      HalfBit(0x8000_0003, i);
      HalfBit(0x4000_0001, i - 1);
      PowerBit(29, i - 2);
    } else {
      assert Pow2(0) == 1 && Pow2(1) == 2;
    }
  }

  lemma Power29()
    ensures Pow2(29) == 0x2000_0000
  {
    assert Pow2(9) == 512 && Pow2(10) == 1024;
    Pow2Add(10, 10);
    Pow2Add(20, 9);
  }

  lemma {:induction false} PowerBit(k: nat, i: nat)
    ensures Bit(Pow2(k), i) <==> i == k
    decreases k
  {
    if k == 0 {
      if i > 0 { DivModUnique(1, Pow2(i), 0, 1); }
    } else if i > 0 {
      HalfBit(Pow2(k), i);
      PowerBit(k - 1, i - 1);
    }
  }

  // --- delay slots -----------------------------------------------------------------

  /** Where the program should go on: a fault retries its instruction as it was,
      a trap goes wherever the instruction would have gone. */
  function Continuation(c: Core, k: Kind): Core { if k.TrapInsn? then Sequence(c, Next) else c }

  /** Faults and traps drop a pending branch at entry, so they come back to the
      right place exactly outside a delay slot (or, for a trap, when the branch
      was to the next instruction anyway). */
  lemma SlotExceptions(c: Core, k: Kind, h: Core)
    requires !k.Interrupt? && c.pc % 4 == 0 && SavedOf(h) == SavedOf(Enter(c, k)) && !h.hasPending
    ensures var want := Continuation(c, k);
      Rte(h).pc == want.pc && Rte(h).hasPending == want.hasPending <==>
      !c.hasPending || (k.TrapInsn? && c.pending == Wrap(c.pc + 4))
  {
    hide Enter, RteTarget;
    RteResumes(c, k, h);
  }

  // --- precise restart ---------------------------------------------------------------

  lemma TranslateKeeps(v: View, t: Tlb, va: u32, code: bool)
    ensures var a := Translate(v, t, va, code);
      a.v.mem == v.mem && a.v.cfg == v.cfg && a.v.devmap == v.devmap &&
      a.v.psr == v.psr && a.v.pc == v.pc && a.v.xlatWrite == v.xlatWrite
  {
    hide WalkFb, KernelPage, DevLookup, R32, PageBase, Lookup, Fill, Reg, At, Linear, InScratch, InUarea;
  }

  lemma TransferKeepsFault(m: Machine, sub: Sub6, d: Reg5, pa: u32)
    requires sub < 0x0C && !PairOverrun(sub, d)
    ensures Transfer(m, sub, d, pa).mmu.fault == m.mmu.fault
  {
    hide R32, R16, R8, W32, W16, W8, SignExtend8, SignExtend16, DevWrite32, TcsPoke;
    var v := Rr(m.core, d);
    var m1 := SetMem(m, W8(m.mmu.cfg.fold, m.mmu.mem, pa, v % 0x100));
    PokeKeepsFault(m1.mmu, m.tcsMbox, pa);
    WriteKeepsFault(m, pa, v);
    if sub == 0x08 { WriteKeepsFault(DevWrite32(m, pa, v), Wrap(pa + 4), Rr(m.core, d + 1)); }
  }

  lemma PokeKeepsFault(v: View, mbox: u32, a: u32)
    ensures TcsPoke(v, mbox, a).fault == v.fault
  {
    hide R8, W8;
  }

  lemma WriteKeepsFault(m: Machine, a: u32, val: u32)
    ensures DevWrite32(m, a, val).mmu.fault == m.mmu.fault
  {
    hide W32, R32, WalkFb, At, NodeZero, TcsPoke, Flushes, CmmuBase;
    PokeKeepsFault(StoreWord(m.mmu, a, val), m.tcsMbox, a);
  }

  /** Only a memory access can fault, and one that does has changed no register
      and no byte. */
  lemma MemOpAborts(m: Machine, sub: Sub6, d: Reg5, ea: u32)
    requires sub < 0x10 && !m.mmu.fault.pending && MemOp(m, sub, d, ea).Ok? && MemOp(m, sub, d, ea).m.mmu.fault.pending
    ensures var m' := MemOp(m, sub, d, ea).m; m'.core == m.core && m'.mmu.mem == m.mmu.mem && m'.clk == m.clk
  {
    hide Translate, Transfer, SetReg;
    SetRegKeepsMmu(m, d, ea);
    if sub < 0x0C {
      var v := Sync(m).(xlatWrite := Writes(sub));
      TranslateKeeps(v, m.tlb, ea, false);
      var a := Translate(v, m.tlb, ea, false);
      if !a.v.fault.pending && !PairOverrun(sub, d) {
        TransferKeepsFault(m.(mmu := a.v.(xlatWrite := false), tlb := a.t), sub, d, a.pa);
      }
    }
  }

  lemma SetRegKeepsMmu(m: Machine, d: Reg5, v: u32)
    ensures SetReg(m, d, v).mmu == m.mmu
  {
  }

  lemma ExecuteAborts(m: Machine, w: u32)
    requires !m.mmu.fault.pending && Execute(m, w).Ok? && Execute(m, w).m.mmu.fault.pending
    ensures var m' := Execute(m, w).m; m'.core == m.core && m'.mmu.mem == m.mmu.mem && m'.clk == m.clk
  {
    hide MemOp, AluImm, AluTriadic, Field, OpOf, DOf, S1Of, S2Of, ImmOf, SubOf, VarOf, CtlSubOf, CrOf;
    hide Wr, CondTrue, Disp16, Disp26, HighBit, Bit, RteTarget, FpOp;
    var a, b := Rr(m.core, S1Of(w)), Rr(m.core, S2Of(w));
    if OpOf(w) < 0x10 {
      MemOpAborts(m, OpOf(w), DOf(w), Wrap(a + ImmOf(w)));
    } else if OpOf(w) == 0x3D && SubOf(w) < 0x10 {
      MemOpAborts(m, SubOf(w), DOf(w), Wrap(a + if VarOf(w) >= 0x10 then Wrap(b * SCALE[SubOf(w)]) else b));
    }
  }

  /** A fetch from a page that nobody maps faults, so a process's first
      instruction on a new page is tried twice. */
  lemma UnmappedFetchFaults(m: Machine)
    requires var v := Sync(m);
      && v.cfg.translateOn && v.cfg.procexp && !v.fault.pending && (v.cfg.realmm ==> m.core.pc < KOFF)
      && Apr(v, true) % 2 == 1 && Lookup(m.tlb, true, Vpn(m.core.pc)) == None
      && WalkFb(v, Apr(v, true), Vpn(m.core.pc), true) == None
    ensures Instruction(m).Done? && Instruction(m).m.core == m.core
    ensures Instruction(m).m.mmu.fault == Fault(true, m.core.pc, true, false, 4, m.core.pc)
  {
    hide Apr, WalkFb, Lookup, R32, Execute;
  }

  /** An instruction that raises a page or copy-on-write fault has changed no
      register, control register, pc, pending branch or byte of memory. */
  lemma FaultIsPrecise(m: Machine)
    requires !m.mmu.fault.pending && Instruction(m).Done? && Instruction(m).m.mmu.fault.pending
    ensures var m' := Instruction(m).m;
      && m'.core == m.core.(count := m'.core.count) && m.core.count <= m'.core.count <= m.core.count + 1
      && m'.mmu.mem == m.mmu.mem && m'.clk == m.clk
  {
    hide Translate, Execute, R32, Sequence;
    TranslateKeeps(Sync(m), m.tlb, m.core.pc, true);
    if !Fetch(m).v.fault.pending && Execute(Issued(m), FetchedWord(m)).m.mmu.fault.pending {
      ExecuteAborts(Issued(m), FetchedWord(m));
    }
  }

  /** What the kernel's fault path owes the program at its rte: general registers,
      EPSR and pipeline as they were on entry, and an rte outside a delay slot. */
  predicate Restores(entry: Core, h: Core) { SavedOf(h) == SavedOf(entry) && h.r == entry.r && !h.hasPending }

  /** A fault, whatever the kernel does about it, and its rte: registers and PSR are
      those the instruction was first tried with; it is fetched again exactly if
      its pc was word-aligned; and the program then goes on where it would have
      gone exactly if no branch was pending or it was to the next word. */
  lemma PreciseRestart(m: Machine, n: Machine)
    requires !m.mmu.fault.pending && Instruction(m).Done? && Instruction(m).m.mmu.fault.pending
    requires Restores(TakeFault(Instruction(m).m).core, n.core)
    requires !Fetch(n).v.fault.pending && IsRte(FetchedWord(n))
    ensures Instruction(n).Done? && !Instruction(n).m.core.hasPending
    ensures var c := Instruction(n).m.core;
      c.r == m.core.r && c.cr[1] == m.core.cr[1] && (c.pc == m.core.pc <==> m.core.pc % 4 == 0)
    ensures var c := Instruction(n).m.core; m.core.pc % 4 == 0 ==>
      (Sequence(c, Next).pc == Sequence(m.core, Next).pc <==>
       !m.core.hasPending || m.core.pending == Wrap(m.core.pc + 4))
  {
    hide Instruction, RteTarget, FaultRegisters, Fetch, FetchedWord, MarkValid, ByteEnable, ExceptionPsr;
    FaultIsPrecise(m);
    var m' := Instruction(m).m;
    RteInstruction(n);
    RteResumes(m'.core, PageFault(m'.mmu.fault.(pending := false)), Issued(n).core);
  }

  /** User code at 0x5000, mapped at page 0; page 1 not mapped; at the end of page 0 a
      `br.n` to 0x2000. */
  function SlotMemory(): Store {
    var f := FoldOf(false);
    W32(f, W32(f, W32(f, W32(f, map[], CODE_CMMU + UAPR, 0x1_0001), 0x1_0000, 0x1_1001), 0x1_1000, 0x5001), 0x5FFC,
      0xC400_0401)
  }

  /** About to run that branch. */
  function SlotMachine(r: RegFile, cr: CtlFile, clk: Clock, fpu: FpUnit): Machine {
    var v := View(SLOT_CONFIG, SlotMemory(), [], 0, 0, 0, false, Fault(false, 0, false, false, 0, 0), 0, 0, 0);
    Machine(Core(r, cr, 0xFFC, 0, false, 7), v, EmptyTlb(), true, clk, false, 0, fpu)
  }

  /** The words that matter. */
  predicate SlotTables(m: Store) {
    var f := FoldOf(false);
    R32(f, m, CODE_CMMU + UAPR) == 0x1_0001 && R32(f, m, 0x1_0000) == 0x1_1001 &&
    R32(f, m, 0x1_1000) == 0x5001 && R32(f, m, 0x5FFC) == 0xC400_0401 && R32(f, m, 0x1_1004) == 0
  }

  lemma SlotWords()
    ensures SlotTables(SlotMemory())
  {
    hide R32, W32;
    var f := FoldOf(false);
    CphysIsPageFold(false);
    var m1 := W32(f, map[], CODE_CMMU + UAPR, 0x1_0001);
    var m2 := W32(f, m1, 0x1_0000, 0x1_1001);
    var m3 := W32(f, m2, 0x1_1000, 0x5001);
    WordRoundTrip(f, map[], CODE_CMMU + UAPR, 0x1_0001);
    WordRoundTrip(f, m1, 0x1_0000, 0x1_1001);
    WordRoundTrip(f, m2, 0x1_1000, 0x5001);
    WordRoundTrip(f, m3, 0x5FFC, 0xC400_0401);
    RamWordsApart(m1, CODE_CMMU + UAPR, 0x1_0000, 0x1_1001);
    RamWordsApart(m2, CODE_CMMU + UAPR, 0x1_1000, 0x5001);
    RamWordsApart(m3, CODE_CMMU + UAPR, 0x5FFC, 0xC400_0401);
    RamWordsApart(m2, 0x1_0000, 0x1_1000, 0x5001);
    RamWordsApart(m3, 0x1_0000, 0x5FFC, 0xC400_0401);
    RamWordsApart(m3, 0x1_1000, 0x5FFC, 0xC400_0401);
    RamWordsApart(map[], 0x1_1004, CODE_CMMU + UAPR, 0x1_0001);
    RamWordsApart(m1, 0x1_1004, 0x1_0000, 0x1_1001);
    RamWordsApart(m2, 0x1_1004, 0x1_1000, 0x5001);
    RamWordsApart(m3, 0x1_1004, 0x5FFC, 0xC400_0401);
    EmptyWord(0x1_1004);
  }

  lemma EmptyWord(a: u32)
    ensures R32(FoldOf(false), map[], a) == 0
  {
    BigFour(0, 0, 0, 0);
  }

  const SLOT_CONFIG := Config(false, FoldOf(false), true, true, 0, 0, 0)

  lemma SlotPointer(v: View)
    requires v.cfg == SLOT_CONFIG && SlotTables(v.mem) && v.psr < 0x8000_0000
    ensures Apr(v, true) == 0x1_0001
  {
    hide R32;
  }

  lemma SlotWalks(m: Store)
    requires SlotTables(m)
    ensures Walk(SLOT_CONFIG, m, 0x1_0001, 0) == Some(0x5001)
    ensures Walk(SLOT_CONFIG, m, 0x1_0001, 1) == None
  {
    hide R32, PageBase, BiasedAt;
    SlotBases();
  }

  lemma SlotBases()
    ensures PageBase(0x1_0001) == 0x1_0000 && PageBase(0x1_1001) == 0x1_1000 && PageBase(0x5001) == 0x5000
  {
  }

  lemma SlotPages(v: View)
    requires v.cfg == SLOT_CONFIG && SlotTables(v.mem) && v.psr < 0x8000_0000
    ensures Apr(v, true) == 0x1_0001 && WalkFb(v, 0x1_0001, 0, true) == Some(Page(0x5000, false))
    ensures WalkFb(v, 0x1_0001, 1, true) == None
  {
    hide Walk, Apr, SlotTables, PageBase;
    SlotPointer(v);
    SlotWalks(v.mem);
    SlotBases();
  }

  /** The branch runs and leaves its slot, on the unmapped page, to come. */
  lemma SlotBranch(r: RegFile, cr: CtlFile, clk: Clock, fpu: FpUnit)
    requires cr[1] < 0x8000_0000
    ensures var m := SlotMachine(r, cr, clk, fpu);
      FetchedWord(m) == 0xC400_0401 && Fetch(m).v == Sync(m) && Fetch(m).t == Fill(EmptyTlb(), true, 0, 0x5000, false)
  {
    hide R32, SlotMemory, Apr, WalkFb, EmptyTlb, Fill;
    var m := SlotMachine(r, cr, clk, fpu);
    SlotWords();
    SlotPages(Sync(m));
    NothingCached(0);
    assert At(0x5000, 0xFFC) == 0x5FFC;
  }

  lemma NothingCached(vpn: VPN)
    ensures Lookup(EmptyTlb(), true, vpn) == None
    ensures vpn != 0 ==> Lookup(Fill(EmptyTlb(), true, 0, 0x5000, false), true, vpn) == None
  {
  }

  /** It runs; its slot faults; and after delivery, the kernel's work and its rte, the
      program falls through to 0x1004 and the branch is lost. */
  lemma SlotFaultExample(r: RegFile, cr: CtlFile, clk: Clock, fpu: FpUnit, n: Machine)
    requires cr[1] < 0x8000_0000
    ensures var o := Instruction(SlotMachine(r, cr, clk, fpu));
      o.Done? && !o.m.mmu.fault.pending && o.m.core.pc == 0x1000 && o.m.core.hasPending && o.m.core.pending == 0x2000
    ensures var m := Instruction(SlotMachine(r, cr, clk, fpu)).m;
      Instruction(m).Done? && Instruction(m).m.mmu.fault.pending && Sequence(m.core, Next).pc == 0x2000
    ensures var m := Instruction(SlotMachine(r, cr, clk, fpu)).m;
      Restores(TakeFault(Instruction(m).m).core, n.core) && !Fetch(n).v.fault.pending && IsRte(FetchedWord(n)) ==>
        Instruction(n).Done? && Sequence(Instruction(n).m.core, Next).pc == 0x1004
  {
    hide R32, Restores, IsRte, TakeFault, SlotMemory, Translate, Instruction;
    SlotRun(r, cr, clk, fpu);
    var m := Instruction(SlotMachine(r, cr, clk, fpu)).m;
    if Restores(TakeFault(Instruction(m).m).core, n.core) && !Fetch(n).v.fault.pending && IsRte(FetchedWord(n)) {
      PreciseRestart(m, n);
    }
  }

  lemma SlotRun(r: RegFile, cr: CtlFile, clk: Clock, fpu: FpUnit)
    requires cr[1] < 0x8000_0000
    ensures var o := Instruction(SlotMachine(r, cr, clk, fpu));
      o.Done? && !o.m.mmu.fault.pending && o.m.core.pc == 0x1000 && o.m.core.hasPending && o.m.core.pending == 0x2000 &&
      Instruction(o.m).Done? && Instruction(o.m).m.mmu.fault.pending
  {
    hide R32, SlotMemory, SlotTables, Fetch, FetchedWord, WalkFb, Apr, Lookup, Fill;
    var m0 := SlotMachine(r, cr, clk, fpu);
    SlotWords();
    SlotBranch(r, cr, clk, fpu);
    BranchWord(Issued(m0));
    var m := Instruction(m0).m;
    SlotUnmapped(m);
    UnmappedFetchFaults(m);
  }

  /** 0xC4000401 is a delayed branch 0x401 words on. */
  lemma BranchWord(m: Machine)
    requires m.core.pc == 0xFFC
    ensures Execute(m, 0xC400_0401) == Ok(m, Jump(0x2000, true))
  {
  }

  lemma SlotUnmapped(m: Machine)
    requires m.mmu.cfg == SLOT_CONFIG && SlotTables(m.mmu.mem)
    requires m.core.cr[1] < 0x8000_0000 && m.core.pc == 0x1000 && m.tlb == Fill(EmptyTlb(), true, 0, 0x5000, false)
    ensures var v := Sync(m);
      Apr(v, true) % 2 == 1 && Lookup(m.tlb, true, Vpn(0x1000)) == None &&
        WalkFb(v, Apr(v, true), Vpn(0x1000), true) == None
  {
    hide SlotTables, Apr, WalkFb, EmptyTlb, Fill, Lookup;
    SlotPages(Sync(m));
    NothingCached(1);
  }
}
