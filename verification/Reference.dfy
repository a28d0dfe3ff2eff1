/** The reference interpreter: the Python decoder and execution core.  Integers
    are unbounded and signed; results are cut to 32 bits only where the code
    masks them. */
module Reference {
  import opened Words
  import opened Memory

  const MASK32 := 0xFFFF_FFFF

  /** Stands for the IndexError of a register number past r31. */
  const INDEX_ERROR := -9

  datatype Mn =
    | XmemBu | Xmem | LdHu | LdBu | LdD | Ld | LdH | LdB | StD | St | StH | StB | LdaD | Lda | LdaH | LdaB
    | AndM | AndU | AndC | MaskM | MaskU | XorM | XorU | XorC | OrM | OrU | OrC
    | Addu | Subu | Divu | Mul | Add | Sub | Div | Cmp
    | Ldcr | Fldcr | Stcr | Fstcr | Xcr | Fxcr | Fpu
    | Br | BrN | Bsr | BsrN | Bb0 | Bb0N | Bb1 | Bb1N | Bcnd | BcndN
    | Clr | Set | Ext | Extu | Mak | Rot | Tb0 | Tb1 | Tcnd
    | Jmp | JmpN | Jsr | JsrN | Ff1 | Ff0 | Tbnd | Rte

  datatype Insn = Insn(mn: Mn, target: int)

  // --- the decoder's tables ----------------------------------------------------

  function LoadStore(op: int): Option<Mn> {
    if 0 <= op < 16 then
      Some([XmemBu, Xmem, LdHu, LdBu, LdD, Ld, LdH, LdB, StD, St, StH, StB, LdaD, Lda, LdaH, LdaB][op])
    else None
  }

  function Arithmetic(op: int): Option<Mn> {
    if 0x18 <= op < 0x20 then Some([Addu, Subu, Divu, Mul, Add, Sub, Div, Cmp][op - 0x18]) else None
  }

  function ImmediateLogic(op: int): Option<Mn> {
    if 0x10 <= op < 0x18 then Some([AndM, AndU, MaskM, MaskU, XorM, XorU, OrM, OrU][op - 0x10]) else Arithmetic(op)
  }

  function Bitfield(sub: int): Option<Mn> {
    if sub == 0x20 then Some(Clr) else if sub == 0x22 then Some(Set) else if sub == 0x24 then Some(Ext)
    else if sub == 0x26 then Some(Extu) else if sub == 0x28 then Some(Mak) else if sub == 0x2A then Some(Rot)
    else None
  }

  function TrapMn(sub: int): Option<Mn> {
    if sub == 0x34 then Some(Tb0) else if sub == 0x36 then Some(Tb1) else if sub == 0x3A then Some(Tcnd) else None
  }

  function ControlMn(sub: int): Option<Mn> {
    if sub == 0x08 then Some(Ldcr) else if sub == 0x09 then Some(Fldcr)
    else if sub == 0x10 then Some(Stcr) else if sub == 0x11 then Some(Fstcr)
    else if sub == 0x18 then Some(Xcr) else if sub == 0x19 then Some(Fxcr) else None
  }

  function BranchMn(op: int): Option<Mn> {
    if 0x30 <= op <= 0x37 then Some([Br, BrN, Bsr, BsrN, Bb0, Bb0N, Bb1, Bb1N][op - 0x30]) else None
  }

  function JumpMn(sub: int): Option<Mn> {
    if 0x30 <= sub <= 0x33 then Some([Jmp, JmpN, Jsr, JsrN][sub - 0x30])
    else if sub == 0x34 then Some(Ff1) else if sub == 0x36 then Some(Ff0)
    else if sub == 0x3E then Some(Tbnd) else if sub == 0x3F then Some(Rte) else None
  }

  function TriadicMn(sub: int): Option<Mn> {
    if sub < 0x10 then LoadStore(sub)
    else if sub == 0x10 then Some(AndM) else if sub == 0x11 then Some(AndC)
    else if sub == 0x14 then Some(XorM) else if sub == 0x15 then Some(XorC)
    else if sub == 0x16 then Some(OrM) else if sub == 0x17 then Some(OrC)
    else if sub < 0x20 then Arithmetic(sub)
    else if sub < 0x30 then Bitfield(sub)
    else JumpMn(sub)
  }

  predicate KnownCond(d: int) { d in {0x01, 0x02, 0x03, 0x0C, 0x0D, 0x0E} }

  predicate KnownFp(fop: int) { fop in {0x00, 0x04, 0x05, 0x06, 0x07, 0x09, 0x0A, 0x0B, 0x0E, 0x0F} }

  // --- fields, as shifts and masks -----------------------------------------------

  function FOp(w: int): int { And(w / 0x400_0000, 0x3F) }
  function FD(w: int): int { And(w / 0x20_0000, 0x1F) }
  function FS1(w: int): int { And(w / 0x1_0000, 0x1F) }
  function FS2(w: int): int { And(w, 0x1F) }
  function FImm(w: int): int { And(w, 0xFFFF) }
  function FSub(w: int): int { And(w / 0x400, 0x3F) }
  function FVar(w: int): int { And(w / 32, 0x1F) }
  function FCtl(w: int): int { And(w / 0x800, 0x1F) }
  function FCr(w: int): int { And(w / 32, 0x3F) }

  function SignedBits(v: int, bits: nat): int
    requires bits > 0
  {
    if And(v, Pow2(bits - 1)) != 0 then v - Pow2(bits) else v
  }

  function Target(addr: int, off: int): int { And(addr + off * 4, MASK32) }

  function Plain(mn: Option<Mn>): Option<Insn> {
    match mn case Some(x) => Some(Insn(x, 0)) case None => None
  }

  function DecodeBranch(w: int, addr: int): Option<Insn> {
    var op := FOp(w);
    if 0x30 <= op <= 0x33 then
      Some(Insn(BranchMn(op).value, Target(addr, SignedBits(And(w, 0x3FF_FFFF), 26))))
    else if 0x34 <= op <= 0x37 then
      Some(Insn(BranchMn(op).value, Target(addr, SignedBits(FImm(w), 16))))
    else if (op == 0x3A || op == 0x3B) && KnownCond(FD(w)) then
      Some(Insn(if op == 0x3A then Bcnd else BcndN, Target(addr, SignedBits(FImm(w), 16))))
    else None
  }

  function Decode(w: int, addr: int): Option<Insn> {
    var op := FOp(w);
    if op < 0x10 then Plain(LoadStore(op))
    else if op < 0x20 then Plain(ImmediateLogic(op))
    else if op == 0x20 then Plain(ControlMn(FCtl(w)))
    else if op == 0x21 then (if KnownFp(FCtl(w)) then Some(Insn(Fpu, 0)) else None)
    else if op < 0x3C then DecodeBranch(w, addr)
    else if op == 0x3C then (if TrapMn(FSub(w)).Some? then Plain(TrapMn(FSub(w))) else Plain(Bitfield(FSub(w))))
    else if op == 0x3D then Plain(TriadicMn(FSub(w)))
    else None
  }

  // --- processor state --------------------------------------------------------

  datatype State = State(r: seq<int>, cr: seq<int>, pc: int, pending: Option<int>, count: nat, mem: Store)

  predicate Valid(p: State) { |p.r| == 32 && |p.cr| == 64 }

  function Get(p: State, n: int): int
    requires Valid(p) && 0 <= n < 32
  {
    if n == 0 then 0 else p.r[n]
  }

  /** Writing r32 raises IndexError. */
  function Put(p: State, n: int, v: int): (q: State)
    requires Valid(p) && 0 <= n < 32
    ensures Valid(q) && q.mem == p.mem && q.pc == p.pc
  {
    if n == 0 then p else p.(r := p.r[n := And(v, MASK32)])
  }

  function S32(v: int): int {
    var x := And(v, MASK32);
    if And(x, 0x8000_0000) != 0 then x - 0x1_0000_0000 else x
  }

  function Word(m: Store, a: int): int { Be32(Rd(m, a), Rd(m, a + 1), Rd(m, a + 2), Rd(m, a + 3)) }

  function Half(m: Store, a: int): int { Be16(Rd(m, a), Rd(m, a + 1)) }

  /** struct.pack(">I") of a value already cut to 32 bits. */
  function PackWord(v: int): seq<u8> {
    var x: u32 := Wrap(v);
    [Byte(x, 0), Byte(x, 1), Byte(x, 2), Byte(x, 3)]
  }

  function LowByte(v: int): u8 { v % 0x100 }
  function HighByte(v: int): u8 { v / 0x100 % 0x100 }

  function PutBytes(m: Store, a: int, bs: seq<u8>): Store
    decreases |bs|
  {
    if bs == [] then m else PutBytes(m[a := bs[0]], a + 1, bs[1..])
  }

  // --- execution --------------------------------------------------------------

  datatype Res = Val(v: int) | Raise(vector: int) | Skip

  function Compare(a: int, b: int): int {
    var sa, sb := S32(a), S32(b);
    2 + (if a == b then 4 else 8)
      + (if sa > sb then 0x10 else 0) + (if sa <= sb then 0x20 else 0)
      + (if sa < sb then 0x40 else 0) + (if sa >= sb then 0x80 else 0)
      + (if a > b then 0x100 else 0) + (if a <= b then 0x200 else 0)
      + (if a < b then 0x400 else 0) + (if a >= b then 0x800 else 0)
  }

  predicate Cond(m5: int, a: int) {
    var s := S32(a);
    if m5 == 0x01 then s > 0 else if m5 == 0x02 then s == 0 else if m5 == 0x03 then s >= 0
    else if m5 == 0x0C then s < 0 else if m5 == 0x0D then s != 0 else if m5 == 0x0E then s <= 0
    else false
  }

  function Logic(mn: Mn, immediate: bool, a: int, b: int): Res {
    match mn
    case OrM => Val(Or(a, b))
    case OrU => Val(Or(a, b * 0x1_0000))
    case OrC => Val(Or(a, And(Not(b), MASK32)))
    case AndM => Val(And(a, if immediate then Or(0xFFFF_0000, b) else b))
    case AndU => Val(And(a, Or(0x0000_FFFF, b * 0x1_0000)))
    case AndC => Val(And(a, And(Not(b), MASK32)))
    case XorM => Val(Xor(a, b))
    case XorU => Val(Xor(a, b * 0x1_0000))
    case XorC => Val(Xor(a, And(Not(b), MASK32)))
    case MaskM => Val(And(a, b))
    case MaskU => Val(And(a, b * 0x1_0000))
    case _ => Skip
  }

  function Calc(mn: Mn, a: int, b: int): Res {
    match mn
    case Addu => Val(a + b)
    case Subu => Val(a - b)
    case Add => Val(S32(a) + S32(b))
    case Sub => Val(S32(a) - S32(b))
    case Mul => Val(Times(a, b))
    case Divu => Over(a, b)
    case Div => SignedOver(a, b)
    case Cmp => Val(Compare(a, b))
    case _ => Skip
  }

  function Times(a: int, b: int): int { And(a * b, MASK32) }

  function Over(a: int, b: int): Res { if b == 0 then Raise(6) else Val(a / b) }

  function SignedOver(a: int, b: int): Res {
    if b == 0 then Raise(6)
    else if S32(b) == 0 then Skip
    else
      var q := Abs(S32(a)) / Abs(S32(b));
      Val(if (S32(a) < 0) != (S32(b) < 0) then -q else q)
  }

  function FieldBits(w: nat): int { if w < 32 then Pow2(w) - 1 else MASK32 }

  function GetField(a: int, w: nat, offset: nat): int { And(a / Pow2(offset), FieldBits(w)) }

  function GetSignedField(a: int, w: nat, offset: nat): int
    requires w >= 1
  {
    var v := GetField(a, w, offset);
    if w < 32 && And(v, Pow2(w - 1)) != 0 then v - Pow2(w) else v
  }

  function MoveField(a: int, w: nat, offset: nat): int { And(a, FieldBits(w)) * Pow2(offset) }

  function FieldAt(w: nat, offset: nat): int { And(FieldBits(w) * Pow2(offset), MASK32) }

  function Rotated(a: int, o: nat): int
    requires o < 32
  {
    And(Or(a / Pow2(o), a * Pow2(32 - o)), MASK32)
  }

  function BitField(mn: Mn, a: int, width: nat, offset: nat): Res
    requires width < 32 && offset < 32
  {
    var w := if width == 0 then 32 else width;
    match mn
    case Extu => Val(GetField(a, w, offset))
    case Ext => Val(GetSignedField(a, w, offset))
    case Mak => Val(MoveField(a, w, offset))
    case Clr => Val(And(a, Not(FieldAt(w, offset))))
    case Set => Val(Or(a, FieldAt(w, offset)))
    case Rot => Val(Rotated(a, offset))
    case _ => Skip
  }

  /** (scale for indexed addressing), for the mnemonics that touch memory. */
  function ScaleOf(mn: Mn): Option<nat> {
    match mn
    case Ld | St | Lda | Xmem => Some(4)
    case LdB | LdBu | StB | LdaB | XmemBu => Some(1)
    case LdH | LdHu | StH | LdaH => Some(2)
    case LdD | StD | LdaD => Some(8)
    case _ => None
  }

  datatype Step1 = Ran(p: State, to: Option<int>) | Raised(vector: int)

  function ByteSigned(b: u8): int { if b >= 0x80 then b - 256 else b }

  function HalfSigned(h: int): int { if h >= 0x8000 then h - 65536 else h }

  function Load(p: State, mn: Mn, d: int, ea: int): Step1
    requires Valid(p) && 0 <= d < 32
  {
    match mn
    case Ld => Ran(Put(p, d, Word(p.mem, ea)), None)
    case LdB => Ran(Put(p, d, ByteSigned(Rd(p.mem, ea))), None)
    case LdBu => Ran(Put(p, d, Rd(p.mem, ea)), None)
    case LdH => Ran(Put(p, d, HalfSigned(Half(p.mem, ea))), None)
    case LdHu => Ran(Put(p, d, Half(p.mem, ea)), None)
    case LdD =>
      if d == 31 then Raised(INDEX_ERROR)
      else Ran(Put(Put(p, d, Word(p.mem, ea)), d + 1, Word(p.mem, ea + 4)), None)
    case _ => Ran(Put(p, d, ea), None)
  }

  function StoreWord(p: State, a: int, v: int): State { p.(mem := PutBytes(p.mem, a, PackWord(v))) }

  function StoreByte(p: State, a: int, v: int): State { p.(mem := PutBytes(p.mem, a, [LowByte(v)])) }

  function StoreHalf(p: State, a: int, v: int): State { p.(mem := PutBytes(p.mem, a, [HighByte(v), LowByte(v)])) }

  function Store(p: State, mn: Mn, d: int, ea: int): Step1
    requires Valid(p) && 0 <= d < 32
  {
    match mn
    case St => Ran(StoreWord(p, ea, Get(p, d)), None)
    case StB => Ran(StoreByte(p, ea, Get(p, d)), None)
    case StH => Ran(StoreHalf(p, ea, Get(p, d)), None)
    case StD =>
      if d == 31 then Raised(INDEX_ERROR)
      else Ran(StoreWord(StoreWord(p, ea, Get(p, d)), ea + 4, Get(p, d + 1)), None)
    case Xmem => Ran(Put(StoreWord(p, ea, Get(p, d)), d, Word(p.mem, ea)), None)
    case _ => Ran(Put(StoreByte(p, ea, Get(p, d)), d, Rd(p.mem, ea)), None)
  }

  function Mem(p: State, mn: Mn, d: int, ea: int): Step1
    requires Valid(p) && 0 <= d < 32
  {
    if mn in {St, StB, StH, StD, Xmem, XmemBu} then Store(p, mn, d, ea) else Load(p, mn, d, ea)
  }

  function Deliver(p: State, d: int, x: Res): Step1
    requires Valid(p) && 0 <= d < 32
  {
    match x case Val(v) => Ran(Put(p, d, v), None) case Raise(n) => Raised(n) case Skip => Raised(-4)
  }

  lemma FieldRanges(w: int)
    ensures 0 <= FOp(w) < 64 && 0 <= FD(w) < 32 && 0 <= FS1(w) < 32 && 0 <= FS2(w) < 32 && 0 <= FSub(w) < 64
    ensures 0 <= FVar(w) < 32 && 0 <= FCtl(w) < 32 && 0 <= FCr(w) < 64 && 0 <= FImm(w) < 0x1_0000
  {
    hide And;
    AndMask(w / 0x400_0000, 6); AndMask(w / 0x20_0000, 5); AndMask(w / 0x1_0000, 5); AndMask(w, 5);
    AndMask(w / 0x400, 6); AndMask(w / 32, 5); AndMask(w / 0x800, 5); AndMask(w / 32, 6); AndMask(w, 16);
    assert Pow2(5) == 32 && Pow2(6) == 64;
    Pow16();
  }

  lemma Pow16()
    ensures Pow2(16) == 0x1_0000 && Pow2(26) == 0x400_0000
  {
    assert Pow2(8) == 256;
    Pow2Add(8, 8);
    Pow2Add(16, 10);
    assert Pow2(10) == 1024;
  }

  predicate BitSet(a: int, d: nat) { And(a / Pow2(d), 1) != 0 }

  function VectorOf(w: int): int { And(w, 0x1FF) }

  predicate IsLogic(mn: Mn) { mn in {OrM, OrU, OrC, AndM, AndU, AndC, XorM, XorU, XorC, MaskM, MaskU} }
  predicate IsCalc(mn: Mn) { mn in {Addu, Subu, Add, Sub, Mul, Divu, Div, Cmp} }
  predicate IsField(mn: Mn) { mn in {Clr, Set, Ext, Extu, Mak, Rot} }
  predicate IsBranch(mn: Mn) { mn in {Br, BrN, Bsr, BsrN, Bb0, Bb0N, Bb1, Bb1N, Bcnd, BcndN, Jmp, JmpN, Jsr, JsrN} }

  function ExecMem(p: State, mn: Mn, w: int): Step1
    requires Valid(p) && ScaleOf(mn).Some?
  {
    FieldRanges(w);
    var a, idx := Get(p, FS1(w)), Get(p, FS2(w));
    var ea :=
      if FOp(w) < 0x10 then And(a + FImm(w), MASK32)
      else And(a + if And(FVar(w), 0x10) != 0 then And(idx * ScaleOf(mn).value, MASK32) else idx, MASK32);
    Mem(p, mn, FD(w), ea)
  }

  function ExecAlu(p: State, mn: Mn, w: int): Step1
    requires Valid(p)
  {
    FieldRanges(w);
    var a := Get(p, FS1(w));
    var b := if FOp(w) < 0x20 then FImm(w) else Get(p, FS2(w));
    Deliver(p, FD(w), if IsLogic(mn) then Logic(mn, FOp(w) < 0x20, a, b) else Calc(mn, a, b))
  }

  function ExecField(p: State, mn: Mn, w: int): Step1
    requires Valid(p)
  {
    FieldRanges(w);
    var f := if FOp(w) == 0x3C then w else Get(p, FS2(w));
    FieldRanges(f);
    Deliver(p, FD(w), BitField(mn, Get(p, FS1(w)), FVar(f), FS2(f)))
  }

  function ExecBranch(p: State, ins: Insn, w: int): Step1
    requires Valid(p)
  {
    FieldRanges(w);
    var d, a, mn, next := FD(w), Get(p, FS1(w)), ins.mn, p.pc + 4;
    match mn
    case Br | BrN => Ran(p, Some(ins.target))
    case Bsr | BsrN => Ran(Put(p, 1, if mn == Bsr then next else next + 4), Some(ins.target))
    case Bb0 | Bb0N => Ran(p, if !BitSet(a, d) then Some(ins.target) else None)
    case Bb1 | Bb1N => Ran(p, if BitSet(a, d) then Some(ins.target) else None)
    case Bcnd | BcndN => Ran(p, if Cond(d, a) then Some(ins.target) else None)
    case Jmp | JmpN => Ran(p, Some(And(Get(p, FS2(w)), Not(3))))
    case Jsr | JsrN => Ran(Put(p, 1, if mn == Jsr then next else next + 4), Some(And(Get(p, FS2(w)), Not(3))))
    case _ => Raised(-4)
  }

  function ExecTrap(p: State, mn: Mn, w: int): Step1
    requires Valid(p)
  {
    FieldRanges(w);
    var d, a := FD(w), Get(p, FS1(w));
    var fire := if mn == Tb0 then !BitSet(a, d) else if mn == Tb1 then BitSet(a, d) else Cond(d, a);
    if fire then Raised(VectorOf(w)) else Ran(p, None)
  }

  function ExecSystem(p: State, mn: Mn, w: int): Step1
    requires Valid(p)
  {
    FieldRanges(w);
    var d, a := FD(w), Get(p, FS1(w));
    match mn
    case Ldcr => Ran(Put(p, d, p.cr[FCr(w)]), None)
    case Stcr => Ran(p.(cr := p.cr[FCr(w) := a]), None)
    case Xcr => Ran(Put(p.(cr := p.cr[FCr(w) := a]), d, p.cr[FCr(w)]), None)
    case Rte => Raised(-2)
    case Fpu | Fldcr | Fstcr | Fxcr | Ff1 | Ff0 => Raised(-3)
    case _ => Raised(-4)
  }

  function Exec(p: State, ins: Insn, w: int): Step1
    requires Valid(p)
  {
    var mn := ins.mn;
    if ScaleOf(mn).Some? then ExecMem(p, mn, w)
    else if IsLogic(mn) || IsCalc(mn) then ExecAlu(p, mn, w)
    else if IsField(mn) then ExecField(p, mn, w)
    else if IsBranch(mn) then ExecBranch(p, ins, w)
    else if mn in {Tb0, Tb1, Tcnd} then ExecTrap(p, mn, w)
    else ExecSystem(p, mn, w)
  }

  predicate Delayed(mn: Mn) { mn in {BrN, BsrN, Bb0N, Bb1N, BcndN, JmpN, JsrN} }

  datatype Outcome = Stepped(p: State) | Trap(vector: int, pc: int)

  function Sequenced(p: State, mn: Mn, to: Option<int>, next: int): State {
    match p.pending
    case Some(t) => p.(pending := None, pc := t)
    case None =>
      match to
      case None => p.(pc := next)
      case Some(t) => if Delayed(mn) then p.(pending := Some(t), pc := next) else p.(pc := t)
  }

  function Step(p: State): Outcome
    requires Valid(p)
  {
    var w := Word(p.mem, p.pc);
    match Decode(w, p.pc)
    case None => Trap(-1, p.pc)
    case Some(ins) =>
      match Exec(p, ins, w)
      case Raised(vector) => Trap(vector, p.pc)
      case Ran(q, to) => Stepped(Sequenced(q.(count := q.count + 1), ins.mn, to, p.pc + 4))
  }
}
