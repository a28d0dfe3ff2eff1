/** The MC88100 interpreter `step`: fetch, execute, sequence.  The floating-point
    unit is a parameter; nothing here depends on what it computes. */
module Cpu {
  import opened Words
  import opened Memory
  import opened Mmu

  type RegFile = s: seq<u32> | |s| == 32 witness seq(32, _ => 0)
  type CtlFile = s: seq<u32> | |s| == 64 witness seq(64, _ => 0)
  type Reg5 = x: int | 0 <= x < 32
  type Sub6 = x: int | 0 <= x < 64
  type FpUnit = (u32, RegFile) -> RegFile

  const BAD: u32 := 0xFFFF_FFFF
  const TIMER_CMP: u32 := 0xE07E_0004
  const TIMER_ENA: u32 := 0xE07E_0000
  const IRQ_SOURCE: u32 := 0xE078_0018

  datatype Core = Core(r: RegFile, cr: CtlFile, pc: u32, pending: u32, hasPending: bool, count: nat)

  /** Clock and interrupt state.  `cmpWrites` counts stores to the compare
      register; the program does not keep it. */
  datatype Clock = Clock(irq: bool, tickDiv: nat, deadline: u32, armed: bool, enabled: bool,
                         nextClock: nat, period: nat, nextSoft: nat, softPeriod: nat,
                         ticks: nat, softTicks: nat, irqSource: u32, cmpWrites: nat)

  datatype Machine = Machine(core: Core, mmu: View, tlb: Tlb, sysmode: bool, clk: Clock,
                             inKcall: bool, tcsMbox: u32, fpu: FpUnit)

  // --- instruction fields -----------------------------------------------------

  function OpOf(w: u32): Sub6 { w / 0x400_0000 }
  function DOf(w: u32): Reg5 { w / 0x20_0000 % 32 }
  function S1Of(w: u32): Reg5 { w / 0x1_0000 % 32 }
  function S2Of(w: u32): Reg5 { w % 32 }
  function ImmOf(w: u32): u16 { w % 0x1_0000 }
  function SubOf(w: u32): Sub6 { w / 0x400 % 64 }
  function VarOf(w: u32): Reg5 { w / 32 % 32 }
  function CtlSubOf(w: u32): Reg5 { w / 0x800 % 32 }
  function CrOf(w: u32): Sub6 { w / 32 % 64 }

  /** 26- and 16-bit word displacements, sign-extended. */
  function Disp26(w: u32): int { var d := w % 0x400_0000; if d < 0x200_0000 then d else d - 0x400_0000 }
  function Disp16(w: u32): int { var d := w % 0x1_0000; if d < 0x8000 then d else d - 0x1_0000 }

  // --- register access ----------------------------------------------------------

  function Rr(c: Core, n: Reg5): u32 { if n == 0 then 0 else c.r[n] }

  function Wr(c: Core, n: Reg5, v: u32): Core { if n == 0 then c else c.(r := c.r[n := v]) }

  // --- arithmetic ---------------------------------------------------------------

  /** A computed value, a division by zero, a result C leaves undefined, or an
      operation that does not exist. */
  datatype Alu = Val(v: u32) | DivZero | Undefined | NoOp

  function CmpBits(a: u32, b: u32): u32 {
    var sa, sb := Signed(a), Signed(b);
    2 + (if a == b then 4 else 8)
      + (if sa > sb then 0x10 else 0) + (if sa <= sb then 0x20 else 0)
      + (if sa < sb then 0x40 else 0) + (if sa >= sb then 0x80 else 0)
      + (if a > b then 0x100 else 0) + (if a <= b then 0x200 else 0)
      + (if a < b then 0x400 else 0) + (if a >= b then 0x800 else 0)
  }

  predicate CondTrue(m5: Reg5, a: u32) {
    var s := Signed(a);
    if m5 == 0x01 then s > 0 else if m5 == 0x02 then s == 0 else if m5 == 0x03 then s >= 0
    else if m5 == 0x0C then s < 0 else if m5 == 0x0D then s != 0 else if m5 == 0x0E then s <= 0
    else false
  }

  /** Operations 0x18-0x1F, the same for both operand forms. */
  function Arith(op: Sub6, a: u32, b: u32): Alu
    requires 0x18 <= op < 0x20
  {
    if op == 0x18 then Val(Wrap(a + b))
    else if op == 0x19 then Val(Wrap(a - b))
    else if op == 0x1A then Quotient(a, b)
    else if op == 0x1B then Val(Product(a, b))
    else if op == 0x1C then Val(Wrap(Signed(a) + Signed(b)))
    else if op == 0x1D then Val(Wrap(Signed(a) - Signed(b)))
    else if op == 0x1E then SignedQuotient(a, b)
    else Val(CmpBits(a, b))
  }

  function Product(a: u32, b: u32): u32 { Wrap(a * b) }

  function Quotient(a: u32, b: u32): Alu {
    if b == 0 then DivZero else (DivShrinks(a, b); Val(a / b))
  }

  function SignedQuotient(a: u32, b: u32): Alu {
    if b == 0 then DivZero
    else if a == 0x8000_0000 && b == 0xFFFF_FFFF then Undefined
    else Val(Wrap(Truncated(Signed(a), Signed(b))))
  }

  function AluImm(op: Sub6, a: u32, b: u16): Alu
    requires 0x10 <= op < 0x20
  {
    var hi := b * 0x1_0000;
    if op == 0x10 then Val(And32(a, Or32(0xFFFF_0000, b)))
    else if op == 0x11 then Val(And32(a, Or32(0x0000_FFFF, hi)))
    else if op == 0x12 then Val(And32(a, b))
    else if op == 0x13 then Val(And32(a, hi))
    else if op == 0x14 then Val(Xor32(a, b))
    else if op == 0x15 then Val(Xor32(a, hi))
    else if op == 0x16 then Val(Or32(a, b))
    else if op == 0x17 then Val(Or32(a, hi))
    else Arith(op, a, b)
  }

  function AluTriadic(sub: Sub6, a: u32, b: u32): Alu
    requires 0x10 <= sub < 0x20
  {
    if sub == 0x10 then Val(And32(a, b))
    else if sub == 0x11 then Val(And32(a, Not32(b)))
    else if sub == 0x14 then Val(Xor32(a, b))
    else if sub == 0x15 then Val(Xor32(a, Not32(b)))
    else if sub == 0x16 then Val(Or32(a, b))
    else if sub == 0x17 then Val(Or32(a, Not32(b)))
    else if sub >= 0x18 then Arith(sub, a, b)
    else NoOp
  }

  function LowMask(w: nat): u32
    requires 1 <= w <= 32
  {
    Pow2Mono(w, 32); Pow32();
    Pow2(w) - 1
  }

  function Shl(a: u32, n: nat): u32 { Wrap(a * Pow2(n)) }

  function Shr(a: u32, n: nat): u32 { DivShrinks(a, Pow2(n)); a / Pow2(n) }

  function Extract(a: u32, w: nat, o: nat): u32
    requires 1 <= w <= 32
  {
    And32(Shr(a, o), LowMask(w))
  }

  function ExtractSigned(a: u32, w: nat, o: nat): u32
    requires 1 <= w <= 32
  {
    var v := Extract(a, w, o);
    if w < 32 && Bit(v, w - 1) then Or32(v, Not32(LowMask(w))) else v
  }

  function MakeField(a: u32, w: nat, o: nat): u32
    requires 1 <= w <= 32
  {
    Shl(And32(a, LowMask(w)), o)
  }

  /** w ones, starting at bit o. */
  function FieldMask(w: nat, o: nat): u32
    requires 1 <= w <= 32
  {
    Shl(LowMask(w), o)
  }

  function Rotate(a: u32, o: Reg5): u32 { if o == 0 then a else Or32(Shr(a, o), Shl(a, 32 - o)) }

  /** Value a bit-field operation writes; NoOp for an encoding with no case. */
  function Field(sub: Sub6, a: u32, width: Reg5, offset: Reg5): Alu {
    var w := if width == 0 then 32 else width;
    if sub == 0x26 then Val(Extract(a, w, offset))
    else if sub == 0x24 then Val(ExtractSigned(a, w, offset))
    else if sub == 0x28 then Val(MakeField(a, w, offset))
    else if sub == 0x20 then Val(And32(a, Not32(FieldMask(w, offset))))
    else if sub == 0x22 then Val(Or32(a, FieldMask(w, offset)))
    else if sub == 0x2A then Val(Rotate(a, offset))
    else NoOp
  }

  /** Bit number of the highest set bit, 32 if there is none. */
  function HighBit(b: u32): u32 { if b == 0 then 32 else HighBitBelow(b, 31) }

  function HighBitBelow(b: u32, i: nat): u32
    requires i < 32
  {
    if i == 0 || Bit(b, i) then i else HighBitBelow(b, i - 1)
  }

  // --- memory -----------------------------------------------------------------

  const SCALE: seq<nat> := [1, 4, 2, 1, 8, 4, 2, 1, 8, 4, 2, 1, 8, 4, 2, 1]

  predicate Writes(sub: Sub6) { 0x08 <= sub <= 0x0B || sub <= 0x01 }

  function SignExtend8(b: u8): u32 { if b < 0x80 then b else b + 0xFFFF_FF00 }
  function SignExtend16(h: u16): u32 { if h < 0x8000 then h else h + 0xFFFF_0000 }

  function TcsPoke(v: View, mbox: u32, a: u32): View {
    if a != mbox || R8(v.cfg.fold, v.mem, mbox) == 0 then v
    else v.(mem := W8(v.cfg.fold, W8(v.cfg.fold, v.mem, mbox, 0), Wrap(mbox + 5), 1))
  }

  /** The compare register arms the deadline; the enable register is remembered. */
  function ClockWritten(k: Clock, a: u32, val: u32): Clock {
    if a == TIMER_CMP then k.(deadline := val, armed := true, cmpWrites := k.cmpWrites + 1)
    else if a == TIMER_ENA then k.(enabled := val != 0) else k
  }

  /** A word store on the device bus. */
  function DevWrite32(m: Machine, a: u32, val: u32): Machine {
    if !m.sysmode then m.(mmu := m.mmu.(mem := W32(m.mmu.cfg.fold, m.mmu.mem, a, val)))
    else if a == IRQ_SOURCE then m.(clk := m.clk.(irqSource := val))
    else
      m.(clk := ClockWritten(m.clk, a, val),
         mmu := TcsPoke(StoreWord(m.mmu, a, val), m.tcsMbox, a),
         tlb := if Flushes(a, val) then EmptyTlb() else m.tlb)
  }

  function SetReg(m: Machine, d: Reg5, v: u32): Machine { m.(core := Wr(m.core, d, v)) }

  function SetMem(m: Machine, s: Store): Machine { m.(mmu := m.mmu.(mem := s)) }

  /** Doubleword forms name a register past r31. */
  predicate PairOverrun(sub: Sub6, d: Reg5) { (sub == 0x04 || sub == 0x08) && d == 31 }

  /** The access itself, at a physical address. */
  function Transfer(m: Machine, sub: Sub6, d: Reg5, pa: u32): Machine
    requires sub < 0x0C && !PairOverrun(sub, d)
  {
    var f, s := m.mmu.cfg.fold, m.mmu.mem;
    if sub == 0x05 then SetReg(m, d, R32(f, s, pa))
    else if sub == 0x07 then SetReg(m, d, SignExtend8(R8(f, s, pa)))
    else if sub == 0x03 then SetReg(m, d, R8(f, s, pa))
    else if sub == 0x06 then SetReg(m, d, SignExtend16(R16(f, s, pa)))
    else if sub == 0x02 then SetReg(m, d, R16(f, s, pa))
    else if sub == 0x04 then SetReg(SetReg(m, d, R32(f, s, pa)), d + 1, R32(f, s, Wrap(pa + 4)))
    else if sub == 0x09 then DevWrite32(m, pa, Rr(m.core, d))
    else if sub == 0x0B then
      var m1 := SetMem(m, W8(f, s, pa, Rr(m.core, d) % 0x100));
      m1.(mmu := TcsPoke(m1.mmu, m.tcsMbox, pa))
    else if sub == 0x0A then SetMem(m, W16(f, s, pa, Rr(m.core, d) % 0x1_0000))
    else if sub == 0x08 then DevWrite32(DevWrite32(m, pa, Rr(m.core, d)), Wrap(pa + 4), Rr(m.core, d + 1))
    else if sub == 0x01 then SetReg(SetMem(m, W32(f, s, pa, Rr(m.core, d))), d, R32(f, s, pa))
    else SetReg(SetMem(m, W8(f, s, pa, Rr(m.core, d) % 0x100)), d, R8(f, s, pa))
  }

  /** The registers translation looks at. */
  function Sync(m: Machine): View { m.mmu.(psr := m.core.cr[1], pc := m.core.pc) }

  datatype Branch = Next | Jump(target: u32, delayed: bool)

  datatype Exec = Ok(m: Machine, br: Branch) | Trap(m: Machine, vector: u32) | Stuck

  /** Load, store, exchange and load-address.  A page fault aborts before any
      register or byte of memory is touched. */
  function MemOp(m: Machine, sub: Sub6, d: Reg5, ea: u32): Exec
    requires sub < 0x10
  {
    if sub >= 0x0C then Ok(SetReg(m, d, ea), Next)
    else
      var a := Translate(Sync(m).(xlatWrite := Writes(sub)), m.tlb, ea, false);
      var v := a.v.(xlatWrite := false);
      if v.fault.pending then
        Ok(m.(mmu := v.(fault := v.fault.(write := Writes(sub), width := SCALE[sub])), tlb := a.t), Next)
      else if PairOverrun(sub, d) then Stuck
      else Ok(Transfer(m.(mmu := v, tlb := a.t), sub, d, a.pa), Next)
  }

  // --- execution --------------------------------------------------------------

  function Result(m: Machine, d: Reg5, x: Alu): Exec {
    match x
    case Val(v) => Ok(SetReg(m, d, v), Next)
    case DivZero => Trap(m, 6)
    case Undefined => Stuck
    case NoOp => Trap(m, BAD)
  }

  /** A bit-field operation with no case writes nothing. */
  function FieldResult(m: Machine, d: Reg5, x: Alu): Exec {
    Ok(if x.Val? then SetReg(m, d, x.v) else m, Next)
  }

  function Control(m: Machine, w: u32): Exec {
    var sub, cr, a := CtlSubOf(w), CrOf(w), Rr(m.core, S1Of(w));
    if sub == 0x08 || sub == 0x09 then Ok(SetReg(m, DOf(w), m.core.cr[cr]), Next)
    else if sub == 0x10 || sub == 0x11 then Ok(m.(core := m.core.(cr := m.core.cr[cr := a])), Next)
    else if sub == 0x18 || sub == 0x19 then
      Ok(SetReg(m.(core := m.core.(cr := m.core.cr[cr := a])), DOf(w), m.core.cr[cr]), Next)
    else Trap(m, BAD)
  }

  predicate FpOp(fop: Reg5) { fop in {0x00, 0x04, 0x05, 0x06, 0x07, 0x09, 0x0A, 0x0B, 0x0E, 0x0F} }

  function Float(m: Machine, w: u32): Exec {
    if FpOp(CtlSubOf(w)) then Ok(m.(core := m.core.(r := m.fpu(w, m.core.r))), Next) else Trap(m, BAD)
  }

  function Link(m: Machine, delayed: bool): Machine {
    SetReg(m, 1, Wrap(m.core.pc + if delayed then 8 else 4))
  }

  function Branches(m: Machine, w: u32): Exec
    requires 0x30 <= OpOf(w) <= 0x37
  {
    var op, pc, delayed := OpOf(w), m.core.pc, OpOf(w) % 2 == 1;
    if op <= 0x33 then
      Ok(if op >= 0x32 then Link(m, delayed) else m, Jump(Wrap(pc + Disp26(w) * 4), delayed))
    else
      var bit := Bit(Rr(m.core, S1Of(w)), DOf(w));
      Ok(m, if bit == (op >= 0x36) then Jump(Wrap(pc + Disp16(w) * 4), delayed) else Next)
  }

  function BranchCond(m: Machine, w: u32): Exec {
    Ok(m, if CondTrue(DOf(w), Rr(m.core, S1Of(w)))
          then Jump(Wrap(m.core.pc + Disp16(w) * 4), OpOf(w) == 0x3B) else Next)
  }

  function FieldsAndTraps(m: Machine, w: u32): Exec {
    var sub, a := SubOf(w), Rr(m.core, S1Of(w));
    if sub == 0x34 || sub == 0x36 || sub == 0x3A then
      var fire := if sub == 0x34 then !Bit(a, DOf(w)) else if sub == 0x36 then Bit(a, DOf(w)) else CondTrue(DOf(w), a);
      if fire then Trap(m, w % 0x200) else Ok(m, Next)
    else FieldResult(m, DOf(w), Field(sub, a, VarOf(w), S2Of(w)))
  }

  /** First valid pipeline register, SXIP then SNIP then SFIP. */
  function RteTarget(cr: CtlFile): u32 {
    (if cr[4] / 2 % 2 == 1 then cr[4] else if cr[5] / 2 % 2 == 1 then cr[5] else cr[6]) / 4 * 4
  }

  function Triadic(m: Machine, w: u32): Exec {
    var sub, d, a, b := SubOf(w), DOf(w), Rr(m.core, S1Of(w)), Rr(m.core, S2Of(w));
    if sub < 0x10 then
      MemOp(m, sub, d, Wrap(a + if VarOf(w) >= 0x10 then Wrap(b * SCALE[sub]) else b))
    else if sub < 0x20 then Result(m, d, AluTriadic(sub, a, b))
    else if sub <= 0x2A then FieldResult(m, d, Field(sub, a, VarOf(b), S2Of(b)))
    else if sub == 0x3A then Ok(SetReg(m, d, HighBit(b)), Next)
    else if sub == 0x3B then Ok(SetReg(m, d, HighBit(Not32(b))), Next)
    else if 0x30 <= sub <= 0x33 then
      Ok(if sub >= 0x32 then Link(m, sub % 2 == 1) else m, Jump(b / 4 * 4, sub % 2 == 1))
    else if sub == 0x3F then
      Ok(m.(core := m.core.(cr := m.core.cr[1 := m.core.cr[2]])), Jump(RteTarget(m.core.cr), false))
    else Trap(m, BAD)
  }

  function Execute(m: Machine, w: u32): Exec {
    var op := OpOf(w);
    if op < 0x10 then MemOp(m, op, DOf(w), Wrap(Rr(m.core, S1Of(w)) + ImmOf(w)))
    else if op < 0x20 then Result(m, DOf(w), AluImm(op, Rr(m.core, S1Of(w)), ImmOf(w)))
    else if op == 0x20 then Control(m, w)
    else if op == 0x21 then Float(m, w)
    else if 0x30 <= op <= 0x37 then Branches(m, w)
    else if op == 0x3A || op == 0x3B then BranchCond(m, w)
    else if op == 0x3C then FieldsAndTraps(m, w)
    else if op == 0x3D then Triadic(m, w)
    else Trap(m, BAD)
  }

  /** Delay slots are explicit: a pending branch wins over whatever the slot did. */
  function Sequence(c: Core, br: Branch): Core {
    if c.hasPending then c.(hasPending := false, pc := c.pending)
    else match br
      case Next => c.(pc := Wrap(c.pc + 4))
      case Jump(t, delayed) =>
        if delayed then c.(pending := t, hasPending := true, pc := Wrap(c.pc + 4)) else c.(pc := t)
  }

  datatype Outcome = Done(m: Machine) | Trapped(m: Machine, vector: u32, tpc: u32) | Crashed

  function Fetch(m: Machine): Ans { Translate(Sync(m), m.tlb, m.core.pc, true) }

  function FetchedWord(m: Machine): u32 { R32(Fetch(m).v.cfg.fold, Fetch(m).v.mem, Fetch(m).pa) }

  /** The machine the fetched instruction executes on: one more counted. */
  function Issued(m: Machine): Machine {
    m.(mmu := Fetch(m).v, tlb := Fetch(m).t, core := m.core.(count := m.core.count + 1))
  }

  /** An issued instruction: execute, abort on a fault, or sequence. */
  function Finish(m: Machine, w: u32, at: u32): Outcome {
    match Execute(m, w)
    case Stuck => Crashed
    case Trap(m', vector) => Trapped(m', vector, at)
    case Ok(m', br) => if m'.mmu.fault.pending then Done(m') else Done(m'.(core := Sequence(m'.core, br)))
  }

  /** One instruction. */
  function Instruction(m: Machine): Outcome {
    if Fetch(m).v.fault.pending then Done(m.(mmu := Fetch(m).v, tlb := Fetch(m).t))
    else Finish(Issued(m), FetchedWord(m), m.core.pc)
  }
}
