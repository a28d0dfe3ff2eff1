/** The C interpreter refines the Python one, instruction by instruction and
    over whole runs, on every encoding the decoder identifies as integer,
    memory, branch, trap or control-register. */
module Refinement {
  import opened Words
  import opened Memory
  import opened Mmu
  import opened Cpu
  import R = Reference

  /** The Python processor a C machine stands for. */
  function ToPy(m: Machine): R.State {
    R.State(m.core.r, m.core.cr, m.core.pc, if m.core.hasPending then Some(m.core.pending) else None,
            m.core.count, m.mmu.mem)
  }

  /** User mode without a kernel: no devices, no translation, no fault. */
  ghost predicate Flat(m: Machine) {
    !m.sysmode && !m.mmu.cfg.translateOn && !m.mmu.fault.pending && m.mmu.cfg.fold == FoldOf(false)
  }

  /** n bytes that neither wrap nor meet the folded window. */
  predicate Clear(a: u32, n: nat) {
    a + n <= TWO32 && (a + n <= VV_WINDOW || VV_WINDOW + 64 * VV_STRIDE <= a)
  }

  // --- fields ---------------------------------------------------------------

  lemma FieldsAgree(w: u32)
    ensures R.FOp(w) == OpOf(w) && R.FD(w) == DOf(w) && R.FS1(w) == S1Of(w) && R.FS2(w) == S2Of(w)
    ensures R.FImm(w) == ImmOf(w) && R.FSub(w) == SubOf(w) && R.FVar(w) == VarOf(w)
    ensures R.FCtl(w) == CtlSubOf(w) && R.FCr(w) == CrOf(w)
  {
    hide And;
    AndMask(w / 0x400_0000, 6); AndMask(w / 0x20_0000, 5); AndMask(w / 0x1_0000, 5); AndMask(w, 5);
    AndMask(w / 0x400, 6); AndMask(w / 32, 5); AndMask(w / 0x800, 5); AndMask(w / 32, 6); AndMask(w, 16);
    assert Pow2(5) == 32 && Pow2(6) == 64;
    R.Pow16();
  }

  lemma SignedAgrees(x: u32)
    ensures R.S32(x) == Signed(x)
  {
    hide And;
    MaskIsWrap(x);
    Pow32();
    assert Pow2(31) == 0x8000_0000;
    AndBit(x, 31);
    assert Bit(x, 31) <==> x >= 0x8000_0000;
  }

  /** A sign bit test and subtraction is sign extension. */
  lemma SignedBitsAgree(v: nat, bits: nat)
    requires bits > 0 && v < Pow2(bits)
    ensures R.SignedBits(v, bits) == if v < Pow2(bits - 1) then v else v - Pow2(bits)
  {
    hide And;
    AndBit(v, bits - 1);
    var p := Pow2(bits - 1);
    if v < p { DivModUnique(v, p, 0, v); } else { DivModUnique(v, p, 1, v - p); }
  }

  lemma TargetsAgree(pc: u32, w: u32)
    ensures R.Target(pc, R.SignedBits(And(w, 0x3FF_FFFF), 26)) == Wrap(pc + Disp26(w) * 4)
    ensures R.Target(pc, R.SignedBits(R.FImm(w), 16)) == Wrap(pc + Disp16(w) * 4)
  {
    hide And, R.SignedBits;
    R.Pow16();
    FieldsAgree(w);
    AndMask(w, 26);
    assert Pow2(25) == 0x200_0000 && Pow2(15) == 0x8000;
    SignedBitsAgree(w % 0x400_0000, 26);
    SignedBitsAgree(w % 0x1_0000, 16);
    MaskIsWrap(pc + Disp26(w) * 4);
    MaskIsWrap(pc + Disp16(w) * 4);
  }

  lemma BitTest(a: u32, d: Reg5)
    ensures R.BitSet(a, d) <==> Bit(a, d)
  {
    hide And;
    AndBit(a / Pow2(d), 0);
  }

  // --- values ---------------------------------------------------------------

  /** A C result and a Python result that store the same word. */
  predicate SameValue(x: Alu, y: R.Res) {
    match x
    case Val(v) => y.Val? && Wrap(y.v) == v
    case DivZero => y == R.Raise(6)
    case Undefined => true
    case NoOp => y.Skip?
  }

  lemma ArithAgrees(op: Sub6, a: u32, b: u32)
    requires 0x18 <= op < 0x20
    ensures SameValue(Arith(op, a, b), R.Calc(R.Arithmetic(op).value, a, b))
  {
    hide Product, Quotient, SignedQuotient, CmpBits, Signed, Wrap, R.Times, R.Over, R.SignedOver, R.S32, R.Compare;
    SignedAgrees(a);
    SignedAgrees(b);
    CompareAgrees(a, b);
    ProductAgrees(a, b);
    QuotientAgrees(a, b);
    SignedQuotientAgrees(a, b);
  }

  lemma CompareAgrees(a: u32, b: u32)
    ensures Wrap(R.Compare(a, b)) == CmpBits(a, b)
  {
    hide R.S32, Signed;
    SignedAgrees(a);
    SignedAgrees(b);
  }

  lemma ProductAgrees(a: u32, b: u32)
    ensures Wrap(R.Times(a, b)) == Product(a, b)
  {
    MaskIsWrap(a * b);
  }

  lemma QuotientAgrees(a: u32, b: u32)
    ensures SameValue(Quotient(a, b), R.Over(a, b))
  {
    if b != 0 { DivShrinks(a, b); }
  }

  lemma SignedQuotientAgrees(a: u32, b: u32)
    ensures SameValue(SignedQuotient(a, b), R.SignedOver(a, b))
  {
    hide Truncated, R.S32;
    SignedAgrees(a);
    SignedAgrees(b);
    if b != 0 { MagnitudeQuotient(Signed(a), Signed(b)); }
  }

  lemma LogicAgrees(op: Sub6, a: u32, b: u16)
    requires 0x10 <= op < 0x18
    ensures var mn := R.ImmediateLogic(op).value;
      R.Logic(mn, true, a, b).Val? && SameValue(AluImm(op, a, b), R.Logic(mn, true, a, b))
  {
    hide And, Or, Xor;
  }

  lemma LogicTriadicAgrees(sub: Sub6, a: u32, b: u32)
    requires sub in {0x10, 0x11, 0x14, 0x15, 0x16, 0x17}
    ensures var mn := R.TriadicMn(sub).value;
      R.Logic(mn, false, a, b).Val? && SameValue(AluTriadic(sub, a, b), R.Logic(mn, false, a, b))
  {
    hide And, Or, Xor;
    MaskIsWrap(Not(b));
    assert Wrap(Not(b)) == Not32(b);
  }

  lemma FieldAgrees(sub: Sub6, a: u32, width: Reg5, offset: Reg5)
    requires R.Bitfield(sub).Some?
    ensures var x := R.BitField(R.Bitfield(sub).value, a, width, offset);
      x.Val? && Field(sub, a, width, offset).Val? && SameValue(Field(sub, a, width, offset), x)
  {
    hide And, Or, Extract, ExtractSigned, MakeField, FieldMask, Rotate;
    hide R.GetField, R.GetSignedField, R.MoveField, R.FieldAt, R.Rotated;
    var w := if width == 0 then 32 else width;
    ExtractAgrees(a, w, offset);
    MakeAgrees(a, w, offset);
    AndNot32(a, FieldMask(w, offset));
    RotAgrees(a, offset);
  }

  lemma MaskAgrees(w: nat)
    requires 1 <= w <= 32
    ensures R.FieldBits(w) == LowMask(w)
  {
    Pow32();
  }

  lemma ExtractAgrees(a: u32, w: nat, o: nat)
    requires 1 <= w <= 32
    ensures R.GetField(a, w, o) == Extract(a, w, o)
    ensures Wrap(R.GetSignedField(a, w, o)) == ExtractSigned(a, w, o)
  {
    hide And, Or, Bit, LowMask, R.FieldBits;
    MaskAgrees(w);
    ExtAgrees(Shr(a, o), w);
  }

  lemma MakeAgrees(a: u32, w: nat, o: nat)
    requires 1 <= w <= 32
    ensures Wrap(R.MoveField(a, w, o)) == MakeField(a, w, o)
    ensures R.FieldAt(w, o) == FieldMask(w, o)
  {
    hide And, LowMask, R.FieldBits, Pow2;
    MaskAgrees(w);
    MaskIsWrap(LowMask(w) * Pow2(o));
  }

  /** Filling with ones above the field is subtracting its size. */
  lemma ExtAgrees(x: u32, w: nat)
    requires 1 <= w <= 32
    ensures var v := And(x, LowMask(w));
      && (And(v, Pow2(w - 1)) != 0 <==> Bit(v, w - 1))
      && (w < 32 ==> Or(v, Not32(LowMask(w))) == Wrap(v - Pow2(w)))
  {
    hide And, Or, Bit;
    AndMask(x, w);
    var v := And(x, LowMask(w));
    AndBit(v, w - 1);
    if w < 32 {
      Pow32();
      Pow2Add(32 - w, w);
      SignFill(v, Pow2(32 - w), w);
    }
  }

  lemma SignFill(v: u32, p: nat, w: nat)
    requires w < 32 && v < Pow2(w) && p >= 1 && p * Pow2(w) == TWO32
    ensures Or(v, TWO32 - Pow2(w)) == v - Pow2(w) + TWO32 == Wrap(v - Pow2(w))
  {
    hide Or;
    assert (p - 1) * Pow2(w) == p * Pow2(w) - Pow2(w);
    OrDisjoint(v, p - 1, w);
  }

  lemma RotAgrees(a: u32, o: Reg5)
    ensures R.Rotated(a, o) == Rotate(a, o)
  {
    hide And, Or;
    var x, y := a / Pow2(o), a * Pow2(32 - o);
    Pow32();
    DivShrinks(a, Pow2(o));
    MaskIsWrap(Or(x, y));
    OrMod(x, y, 32);
    if o == 0 {
      DivModUnique(y, TWO32, a, 0);
      OrZero(a);
    }
  }

  lemma OrZero(a: int)
    ensures Or(a, 0) == a
  {
  }

  // --- one instruction ----------------------------------------------------------

  /** Same registers, control registers, pc, pending branch and memory. */
  ghost predicate Same(m: Machine, p: R.State) {
    m.core.r == p.r && m.core.cr == p.cr && m.core.pc == p.pc && m.mmu.mem == p.mem &&
    p.pending == if m.core.hasPending then Some(m.core.pending) else None
  }

  /** The two interpreters did the same thing, starting from m. */
  ghost predicate Agree(m: Machine, e: Exec, s: R.Step1, mn: R.Mn) {
    match s
    case Raised(vector) => e == Trap(m, Wrap(vector))
    case Ran(p, to) =>
      && e.Ok? && Same(e.m, p) && Flat(e.m) && e.m.core.count == m.core.count && p.pc == m.core.pc
      && e.br == match to { case None => Next case Some(t) => if 0 <= t < TWO32 then Jump(t, R.Delayed(mn)) else Next }
      && (to.Some? ==> 0 <= to.value < TWO32)
  }

  lemma PutAgrees(m: Machine, p: R.State, d: Reg5, v: int)
    requires Same(m, p)
    ensures R.Valid(p) && Same(SetReg(m, d, Wrap(v)), R.Put(p, d, v))
  {
    hide And;
    MaskIsWrap(v);
  }

  lemma ClearLanes(a: u32, n: nat, i: nat)
    requires Clear(a, n) && i < n
    ensures a + i < TWO32 && Lane(FoldOf(false), a, i) == a + i
  {
  }

  lemma Put2(m: Store, a: int, b0: u8, b1: u8)
    ensures R.PutBytes(m, a, [b0, b1]) == m[a := b0][a + 1 := b1]
  {
    assert [b0, b1][1..] == [b1] && [b1][1..] == [];
    assert R.PutBytes(m[a := b0], a + 1, [b1]) == R.PutBytes(m[a := b0][a + 1 := b1], a + 2, []);
  }

  lemma PackedWord(m: Store, a: int, v: u32)
    ensures R.PutBytes(m, a, R.PackWord(v)) ==
      m[a := Byte(v, 0)][a + 1 := Byte(v, 1)][a + 2 := Byte(v, 2)][a + 3 := Byte(v, 3)]
  {
    hide Byte;
    var b0, b1, b2, b3 := Byte(v, 0), Byte(v, 1), Byte(v, 2), Byte(v, 3);
    assert [b0, b1, b2, b3][1..] == [b1, b2, b3] && [b1, b2, b3][1..] == [b2, b3];
    assert R.PutBytes(m[a := b0], a + 1, [b1, b2, b3]) == R.PutBytes(m[a := b0][a + 1 := b1], a + 2, [b2, b3]);
    Put2(m[a := b0][a + 1 := b1], a + 2, b2, b3);
  }

  lemma WordsAgree(m: Store, a: u32, v: u32)
    requires Clear(a, 4)
    ensures R32(FoldOf(false), m, a) == R.Word(m, a)
    ensures W32(FoldOf(false), m, a, v) == R.PutBytes(m, a, R.PackWord(v))
  {
    hide Byte, Be32, Lane, R.PackWord, R.PutBytes;
    ClearLanes(a, 4, 1); ClearLanes(a, 4, 2); ClearLanes(a, 4, 3);
    PackedWord(m, a, v);
  }

  lemma HalvesAgree(m: Store, a: u32, v: u32)
    requires Clear(a, 2)
    ensures R16(FoldOf(false), m, a) == R.Half(m, a)
    ensures W16(FoldOf(false), m, a, v % 0x1_0000) == R.PutBytes(m, a, [R.HighByte(v), R.LowByte(v)])
  {
    hide Lane, R.PutBytes;
    ClearLanes(a, 2, 1);
    HalfBytes(v);
    Put2(m, a, v / 0x100 % 0x100, v % 0x100);
  }

  lemma HalfBytes(v: u32)
    ensures v % 0x1_0000 / 0x100 == v / 0x100 % 0x100 && v % 0x1_0000 % 0x100 == v % 0x100
  {
  }

  lemma BytesAgree(m: Store, a: u32, v: u8)
    requires Clear(a, 1)
    ensures R8(FoldOf(false), m, a) == Rd(m, a)
    ensures W8(FoldOf(false), m, a, v) == R.PutBytes(m, a, [v])
  {
    var b: seq<u8> := [v];
    assert b[1..] == [];
  }

  /** What an access must avoid for the two to be compared. */
  predicate MemScope(m: Machine, sub: Sub6, d: Reg5, ea: u32)
    requires sub < 0x10
  {
    sub < 0x0C ==> Clear(ea, SCALE[sub]) && !PairOverrun(sub, d) && (sub == 0x0B ==> ea != m.tcsMbox)
  }

  lemma LoadAgrees(m: Machine, p: R.State, sub: Sub6, d: Reg5, ea: u32)
    requires Same(m, p) && Flat(m) && 0x02 <= sub < 0x08 && sub != 0x04 && MemScope(m, sub, d, ea)
    ensures Agree(m, Ok(Transfer(m, sub, d, ea), Next), R.Mem(p, R.LoadStore(sub).value, d, ea), R.LoadStore(sub).value)
  {
    hide R32, R16, R.Word, R.Half, R.Put, SetReg, R8, Clear, DevWrite32, TcsPoke, SetMem, W8, W16, W32;
    hide R.PackWord, R.PutBytes, R.Get, FoldOf, R.Store;
    var s := m.mmu.mem;
    var v := if sub == 0x05 then R.Word(s, ea) else if sub % 4 == 3 then Rd(s, ea) else R.Half(s, ea);
    if sub == 0x05 { WordsAgree(s, ea, 0); }
    else if sub == 0x07 || sub == 0x03 { BytesAgree(s, ea, 0); }
    else { HalvesAgree(s, ea, 0); }
    var x := if sub == 0x07 && v >= 0x80 then v - 256 else if sub == 0x06 && v >= 0x8000 then v - 65536 else v;
    PutAgrees(m, p, d, x);
    SetRegKeeps(m, d, Wrap(x));
  }

  lemma DoubleClear(ea: u32)
    requires Clear(ea, 8)
    ensures Clear(ea, 4) && ea + 4 < TWO32 && Clear(ea + 4, 4) && Wrap(ea + 4) == ea + 4
  {
  }

  lemma LoadDoubleAgrees(m: Machine, p: R.State, d: Reg5, ea: u32)
    requires Same(m, p) && Flat(m) && MemScope(m, 0x04, d, ea)
    ensures Agree(m, Ok(Transfer(m, 0x04, d, ea), Next), R.Mem(p, R.LdD, d, ea), R.LdD)
  {
    hide R32, R16, R8, R.Word, R.Half, R.Put, SetReg, DevWrite32, TcsPoke, SetMem, W8, W16, W32, R.PackWord;
    hide R.PutBytes, R.Get, R.Store;
    hide SignExtend8, SignExtend16, FoldOf;
    var s := m.mmu.mem;
    DoubleClear(ea);
    WordsAgree(s, ea, 0);
    WordsAgree(s, ea + 4, 0);
    PutAgrees(m, p, d, R.Word(s, ea));
    SetRegKeeps(m, d, R.Word(s, ea));
    var m1 := SetReg(m, d, R.Word(s, ea));
    PutAgrees(m1, R.Put(p, d, R.Word(s, ea)), d + 1, R.Word(s, ea + 4));
    SetRegKeeps(m1, d + 1, R.Word(s, ea + 4));
  }

  lemma StoreSmallAgrees(m: Machine, p: R.State, sub: Sub6, d: Reg5, ea: u32)
    requires Same(m, p) && Flat(m) && sub in {0x0A, 0x0B} && MemScope(m, sub, d, ea)
    ensures Agree(m, Ok(Transfer(m, sub, d, ea), Next), R.Mem(p, R.LoadStore(sub).value, d, ea), R.LoadStore(sub).value)
  {
    hide R32, R16, R8, W32, W16, W8, R.Word, R.Half, R.PutBytes, R.PackWord, R.Put, SetReg;
    hide SignExtend8, SignExtend16, FoldOf, DevWrite32, R.Load;
    if sub == 0x0A {
      HalvesAgree(m.mmu.mem, ea, Rr(m.core, d));
    } else {
      BytesAgree(m.mmu.mem, ea, Rr(m.core, d) % 0x100);
    }
  }

  lemma SwapByteAgrees(m: Machine, p: R.State, sub: Sub6, d: Reg5, ea: u32)
    requires Same(m, p) && Flat(m) && sub == 0x00 && MemScope(m, sub, d, ea)
    ensures Agree(m, Ok(Transfer(m, sub, d, ea), Next), R.Mem(p, R.LoadStore(sub).value, d, ea), R.LoadStore(sub).value)
  {
    hide R32, R16, R8, W32, W16, W8, R.Word, R.Half, R.PutBytes, R.PackWord, R.Put, SetReg;
    hide SignExtend8, SignExtend16, FoldOf, DevWrite32, R.Load;
    var s, v := m.mmu.mem, Rr(m.core, d);
    BytesAgree(s, ea, v % 0x100);
    var b := R.PutBytes(s, ea, [R.LowByte(v)]);
    PutAgrees(SetMem(m, b), p.(mem := b), d, Rd(s, ea));
    SetRegKeeps(SetMem(m, b), d, Rd(s, ea));
  }

  lemma StoreWordAgrees(m: Machine, p: R.State, sub: Sub6, d: Reg5, ea: u32)
    requires Same(m, p) && Flat(m) && sub == 0x09 && MemScope(m, sub, d, ea)
    ensures Agree(m, Ok(Transfer(m, sub, d, ea), Next), R.Mem(p, R.LoadStore(sub).value, d, ea), R.LoadStore(sub).value)
  {
    hide R32, R16, R8, W32, W16, W8, R.Word, R.Half, R.PutBytes, R.PackWord, R.Put, SetReg;
    hide SignExtend8, SignExtend16, FoldOf, StoreWord, TcsPoke, R.Load;
    WordsAgree(m.mmu.mem, ea, Rr(m.core, d));
  }

  lemma StoreDoubleAgrees(m: Machine, p: R.State, sub: Sub6, d: Reg5, ea: u32)
    requires Same(m, p) && Flat(m) && sub == 0x08 && MemScope(m, sub, d, ea)
    ensures Agree(m, Ok(Transfer(m, sub, d, ea), Next), R.Mem(p, R.LoadStore(sub).value, d, ea), R.LoadStore(sub).value)
  {
    hide R32, R16, R8, W32, W16, W8, R.Word, R.Half, R.PutBytes, R.PackWord, R.Put, SetReg;
    hide SignExtend8, SignExtend16, FoldOf, StoreWord, TcsPoke, R.Load;
    WordsAgree(m.mmu.mem, ea, Rr(m.core, d));
    DoubleClear(ea);
    WordsAgree(R.PutBytes(m.mmu.mem, ea, R.PackWord(Rr(m.core, d))), ea + 4, Rr(m.core, d + 1));
  }

  lemma SwapWordAgrees(m: Machine, p: R.State, sub: Sub6, d: Reg5, ea: u32)
    requires Same(m, p) && Flat(m) && sub == 0x01 && MemScope(m, sub, d, ea)
    ensures Agree(m, Ok(Transfer(m, sub, d, ea), Next), R.Mem(p, R.LoadStore(sub).value, d, ea), R.LoadStore(sub).value)
  {
    hide R32, R16, R8, W32, W16, W8, R.Word, R.Half, R.PutBytes, R.PackWord, R.Put, SetReg;
    hide SignExtend8, SignExtend16, FoldOf, StoreWord, TcsPoke, R.Load;
    var s, v := m.mmu.mem, Rr(m.core, d);
    WordsAgree(s, ea, v);
    var b := R.PutBytes(s, ea, R.PackWord(v));
    PutAgrees(SetMem(m, b), p.(mem := b), d, R.Word(s, ea));
    SetRegKeeps(SetMem(m, b), d, R.Word(s, ea));
  }

  lemma MemAgrees(m: Machine, p: R.State, sub: Sub6, d: Reg5, ea: u32)
    requires Same(m, p) && Flat(m) && sub < 0x10 && MemScope(m, sub, d, ea)
    ensures Agree(m, MemOp(m, sub, d, ea), R.Mem(p, R.LoadStore(sub).value, d, ea), R.LoadStore(sub).value)
  {
    hide Transfer, R.Put, SetReg, R.Store, Clear, FoldOf, R.Word, R.Half, SignExtend8, SignExtend16;
    if sub >= 0x0C {
      PutAgrees(m, p, d, ea);
      SetRegKeeps(m, d, ea);
    } else {
      var m1 := m.(mmu := Sync(m).(xlatWrite := false));
      assert m1.(mmu := Sync(m1).(xlatWrite := false)) == m1;
      if sub == 0x04 { LoadDoubleAgrees(m1, p, d, ea); }
      else if 0x02 <= sub < 0x08 { LoadAgrees(m1, p, sub, d, ea); }
      else if sub == 0x00 { SwapByteAgrees(m1, p, sub, d, ea); }
      else if sub == 0x01 { SwapWordAgrees(m1, p, sub, d, ea); }
      else if sub in {0x0A, 0x0B} { StoreSmallAgrees(m1, p, sub, d, ea); }
      else if sub == 0x08 { StoreDoubleAgrees(m1, p, sub, d, ea); }
      else { StoreWordAgrees(m1, p, sub, d, ea); }
    }
  }

  lemma SetRegKeeps(m: Machine, d: Reg5, v: u32)
    requires Flat(m)
    ensures var m' := SetReg(m, d, v); Flat(m') && m'.core.count == m.core.count && m'.core.pc == m.core.pc
  {
  }

  lemma DeliverAgrees(m: Machine, p: R.State, d: Reg5, x: Alu, y: R.Res, mn: R.Mn)
    requires Same(m, p) && Flat(m) && SameValue(x, y) && (x.Val? || x.DivZero?)
    ensures Agree(m, Result(m, d, x), R.Deliver(p, d, y), mn)
    ensures x.Val? ==> Agree(m, FieldResult(m, d, x), R.Deliver(p, d, y), mn)
  {
    hide R.Put, SetReg;
    if x.Val? {
      PutAgrees(m, p, d, y.v);
      SetRegKeeps(m, d, x.v);
    }
  }

  // --- every identified word ------------------------------------------------------

  /** The encodings compared: all the decoder identifies except floating point,
      fldcr/fstcr/fxcr, ff0/ff1, tbnd and rte. */
  predicate Identified(w: u32) {
    var op, sub := OpOf(w), SubOf(w);
    op < 0x20 || (op == 0x20 && CtlSubOf(w) in {0x08, 0x10, 0x18}) || 0x30 <= op <= 0x37 ||
    ((op == 0x3A || op == 0x3B) && R.KnownCond(DOf(w))) ||
    (op == 0x3C && (R.TrapMn(sub).Some? || R.Bitfield(sub).Some?)) ||
    (op == 0x3D && R.TriadicMn(sub).Some? && sub !in {0x34, 0x36, 0x3E, 0x3F})
  }

  function Indexed(m: Machine, w: u32): u32
    requires SubOf(w) < 0x10
  {
    var b := Rr(m.core, S2Of(w));
    Wrap(Rr(m.core, S1Of(w)) + if VarOf(w) >= 0x10 then Wrap(b * SCALE[SubOf(w)]) else b)
  }

  /** Accesses stay clear of wrap, window and mailbox; no INT_MIN / -1. */
  predicate InScope(m: Machine, w: u32) {
    && (OpOf(w) < 0x10 ==> MemScope(m, OpOf(w), DOf(w), Wrap(Rr(m.core, S1Of(w)) + ImmOf(w))))
    && (OpOf(w) == 0x3D && SubOf(w) < 0x10 ==> MemScope(m, SubOf(w), DOf(w), Indexed(m, w)))
    && (OpOf(w) == 0x3D && SubOf(w) == 0x1E ==>
          !(Rr(m.core, S1Of(w)) == 0x8000_0000 && Rr(m.core, S2Of(w)) == 0xFFFF_FFFF))
  }

  ghost predicate Matches(m: Machine, p: R.State, w: u32) {
    var ins := R.Decode(w, p.pc);
    R.Valid(p) && ins.Some? && Agree(m, Execute(m, w), R.Exec(p, ins.value, w), ins.value.mn)
  }

  lemma ImmediateMatches(m: Machine, p: R.State, w: u32)
    requires Same(m, p) && Flat(m) && OpOf(w) < 0x20 && InScope(m, w)
    ensures Matches(m, p, w)
  {
    hide OpOf, DOf, S1Of, S2Of, ImmOf, SubOf, VarOf, CtlSubOf, CrOf;
    hide R.FOp, R.FD, R.FS1, R.FS2, R.FImm, R.FSub, R.FVar, R.FCtl, R.FCr;
    hide R.ExecField, R.ExecBranch, R.ExecTrap, R.ExecSystem, Control, Float, Branches, BranchCond;
    hide FieldsAndTraps, Triadic;
    hide R.DecodeBranch;
    hide And, Agree, MemOp, R.Mem, AluImm, Arith, R.Logic, R.Calc, Result, R.Deliver, MemScope, Wrap;
    FieldsAgree(w);
    var op, a, b := OpOf(w), Rr(m.core, S1Of(w)), ImmOf(w);
    if op < 0x10 {
      MaskIsWrap(a + b);
      MemAgrees(m, p, op, DOf(w), Wrap(a + b));
      assert R.ScaleOf(R.LoadStore(op).value).Some?;
    } else if op < 0x18 {
      LogicAgrees(op, a, b);
      LogicIsValue(op, a, b);
      DeliverAgrees(m, p, DOf(w), AluImm(op, a, b), R.Logic(R.ImmediateLogic(op).value, true, a, b),
        R.ImmediateLogic(op).value);
    } else {
      ArithAgrees(op, a, b);
      ArithIsLogicFree(op, a, b);
      DeliverAgrees(m, p, DOf(w), Arith(op, a, b), R.Calc(R.Arithmetic(op).value, a, b), R.Arithmetic(op).value);
    }
  }

  lemma LogicIsValue(op: Sub6, a: u32, b: u16)
    requires 0x10 <= op < 0x18
    ensures AluImm(op, a, b).Val?
  {
    hide And, Or, Xor;
  }

  lemma ArithIsLogicFree(op: Sub6, a: u32, b: u32)
    requires 0x18 <= op < 0x20
    ensures R.Logic(R.Arithmetic(op).value, true, a, b) == R.Logic(R.Arithmetic(op).value, false, a, b) == R.Skip
    ensures R.ScaleOf(R.Arithmetic(op).value) == None
    ensures b < 0x1_0000 ==> AluImm(op, a, b) == Arith(op, a, b)
    ensures AluTriadic(op, a, b) == Arith(op, a, b)
    ensures Arith(op, a, b).Val? || Arith(op, a, b).DivZero? || (op == 0x1E && a == 0x8000_0000 && b == 0xFFFF_FFFF)
  {
    hide And, Or, Xor, CmpBits, Truncated, Product;
  }

  lemma ControlMatches(m: Machine, p: R.State, w: u32)
    requires Same(m, p) && Flat(m) && OpOf(w) == 0x20 && CtlSubOf(w) in {0x08, 0x10, 0x18}
    ensures Matches(m, p, w)
  {
    hide OpOf, DOf, S1Of, S2Of, ImmOf, SubOf, VarOf, CtlSubOf, CrOf;
    hide R.FOp, R.FD, R.FS1, R.FS2, R.FImm, R.FSub, R.FVar, R.FCtl, R.FCr;
    hide R.ExecMem, R.ExecAlu, R.ExecField, R.ExecBranch, R.ExecTrap, R.ExecSystem, R.DecodeBranch, Agree;
    hide MemOp, AluImm, Control, Float, Branches, BranchCond, FieldsAndTraps, Triadic;
    FieldsAgree(w);
    ControlAgrees(m, p, R.ControlMn(CtlSubOf(w)).value, w);
  }

  lemma ReadControlAgrees(m: Machine, p: R.State, mn: R.Mn, w: u32)
    requires Same(m, p) && Flat(m) && CtlSubOf(w) == 0x08 && mn == R.ControlMn(CtlSubOf(w)).value
    ensures R.Valid(p) && Agree(m, Control(m, w), R.ExecSystem(p, mn, w), mn)
  {
    hide OpOf, DOf, S1Of, S2Of, ImmOf, SubOf, VarOf, CtlSubOf, CrOf;
    hide R.FOp, R.FD, R.FS1, R.FS2, R.FImm, R.FSub, R.FVar, R.FCtl, R.FCr;
    hide And, R.Put, SetReg, R.Cond, R.BitSet, R.VectorOf;
    FieldsAgree(w);
    PutAgrees(m, p, DOf(w), m.core.cr[CrOf(w)]);
    SetRegKeeps(m, DOf(w), m.core.cr[CrOf(w)]);
  }

  lemma WriteControlAgrees(m: Machine, p: R.State, mn: R.Mn, w: u32)
    requires Same(m, p) && Flat(m) && CtlSubOf(w) in {0x10, 0x18} && mn == R.ControlMn(CtlSubOf(w)).value
    ensures R.Valid(p) && Agree(m, Control(m, w), R.ExecSystem(p, mn, w), mn)
  {
    hide OpOf, DOf, S1Of, S2Of, ImmOf, SubOf, VarOf, CtlSubOf, CrOf;
    hide R.FOp, R.FD, R.FS1, R.FS2, R.FImm, R.FSub, R.FVar, R.FCtl, R.FCr;
    hide And, R.Put, SetReg, R.Cond, R.BitSet, R.VectorOf;
    FieldsAgree(w);
    var cr, a, d := CrOf(w), Rr(m.core, S1Of(w)), DOf(w);
    var m1, p1 := m.(core := m.core.(cr := m.core.cr[cr := a])), p.(cr := p.cr[cr := a]);
    if mn == R.Xcr {
      PutAgrees(m1, p1, d, m.core.cr[cr]);
      SetRegKeeps(m1, d, m.core.cr[cr]);
    }
  }

  lemma ControlAgrees(m: Machine, p: R.State, mn: R.Mn, w: u32)
    requires Same(m, p) && Flat(m) && CtlSubOf(w) in {0x08, 0x10, 0x18} && mn == R.ControlMn(CtlSubOf(w)).value
    ensures R.Valid(p) && Agree(m, Control(m, w), R.ExecSystem(p, mn, w), mn)
  {
    hide CtlSubOf, Agree, Control, R.ExecSystem;
    if CtlSubOf(w) == 0x08 {
      ReadControlAgrees(m, p, mn, w);
    } else {
      WriteControlAgrees(m, p, mn, w);
    }
  }

  lemma LinkAgrees(m: Machine, p: R.State, delayed: bool)
    requires Same(m, p) && Flat(m)
    ensures R.Valid(p) && Same(Link(m, delayed), R.Put(p, 1, p.pc + if delayed then 8 else 4)) && Flat(Link(m, delayed))
    ensures Link(m, delayed).core.count == m.core.count && Link(m, delayed).core.pc == m.core.pc
    ensures R.Put(p, 1, p.pc + if delayed then 8 else 4).pc == p.pc
  {
    PutAgrees(m, p, 1, p.pc + if delayed then 8 else 4);
  }

  lemma BranchMatches(m: Machine, p: R.State, w: u32)
    requires Same(m, p) && Flat(m) && 0x30 <= OpOf(w) <= 0x37
    ensures Matches(m, p, w)
  {
    hide OpOf, DOf, S1Of, S2Of, ImmOf, SubOf, VarOf, CtlSubOf, CrOf;
    hide R.FOp, R.FD, R.FS1, R.FS2, R.FImm, R.FSub, R.FVar, R.FCtl, R.FCr;
    hide R.ExecMem, R.ExecAlu, R.ExecField, R.ExecBranch, R.ExecTrap, R.ExecSystem, Agree, And, R.SignedBits, R.Target;
    hide MemOp, AluImm, Control, Float, Branches, BranchCond, FieldsAndTraps, Triadic;
    FieldsAgree(w);
    var op := OpOf(w);
    var ins := R.DecodeBranch(w, p.pc).value;
    if op <= 0x33 { UncondAgrees(m, p, ins, w); } else { BitBranchAgrees(m, p, ins, w); }
  }

  lemma UncondAgrees(m: Machine, p: R.State, ins: R.Insn, w: u32)
    requires Same(m, p) && Flat(m) && 0x30 <= OpOf(w) <= 0x33 && R.DecodeBranch(w, p.pc) == Some(ins)
    ensures R.Valid(p) && Agree(m, Branches(m, w), R.ExecBranch(p, ins, w), ins.mn)
  {
    hide OpOf, DOf, S1Of, S2Of, ImmOf, SubOf, VarOf, CtlSubOf, CrOf;
    hide R.FOp, R.FD, R.FS1, R.FS2, R.FImm, R.FSub, R.FVar, R.FCtl, R.FCr;
    hide And, R.BitSet, R.Put, Link, R.SignedBits, R.Target, Wrap, Disp26, Disp16;
    FieldsAgree(w);
    TargetsAgree(m.core.pc, w);
    LinkAgrees(m, p, OpOf(w) % 2 == 1);
  }

  lemma BitBranchAgrees(m: Machine, p: R.State, ins: R.Insn, w: u32)
    requires Same(m, p) && Flat(m) && 0x34 <= OpOf(w) <= 0x37 && R.DecodeBranch(w, p.pc) == Some(ins)
    ensures R.Valid(p) && Agree(m, Branches(m, w), R.ExecBranch(p, ins, w), ins.mn)
  {
    hide OpOf, DOf, S1Of, S2Of, ImmOf, SubOf, VarOf, CtlSubOf, CrOf;
    hide R.FOp, R.FD, R.FS1, R.FS2, R.FImm, R.FSub, R.FVar, R.FCtl, R.FCr;
    hide And, R.BitSet, R.Put, Link, Bit, R.SignedBits, R.Target, Wrap, Disp26, Disp16;
    FieldsAgree(w);
    TargetsAgree(m.core.pc, w);
    BitTest(Rr(m.core, S1Of(w)), DOf(w));
  }

  lemma CondAgrees(d: Reg5, a: u32)
    ensures R.Cond(d, a) == CondTrue(d, a)
  {
    hide R.S32;
    SignedAgrees(a);
  }

  lemma CondMatches(m: Machine, p: R.State, w: u32)
    requires Same(m, p) && Flat(m) && (OpOf(w) == 0x3A || OpOf(w) == 0x3B) && R.KnownCond(DOf(w))
    ensures Matches(m, p, w)
  {
    hide OpOf, DOf, S1Of, S2Of, ImmOf, SubOf, VarOf, CtlSubOf, CrOf;
    hide R.FOp, R.FD, R.FS1, R.FS2, R.FImm, R.FSub, R.FVar, R.FCtl, R.FCr;
    hide R.ExecMem, R.ExecAlu, R.ExecField, R.ExecTrap, R.ExecSystem, MemOp, AluImm, Control, Float, Branches;
    hide FieldsAndTraps, Triadic;
    hide And, R.BitSet, R.SignedBits, R.Target, Wrap, Disp16, R.Cond, CondTrue;
    FieldsAgree(w);
    TargetsAgree(m.core.pc, w);
    CondAgrees(DOf(w), Rr(m.core, S1Of(w)));
  }

  lemma TrapMatches(m: Machine, p: R.State, w: u32)
    requires Same(m, p) && Flat(m) && OpOf(w) == 0x3C && R.TrapMn(SubOf(w)).Some?
    ensures Matches(m, p, w)
  {
    hide OpOf, DOf, S1Of, S2Of, ImmOf, SubOf, VarOf, CtlSubOf, CrOf;
    hide R.FOp, R.FD, R.FS1, R.FS2, R.FImm, R.FSub, R.FVar, R.FCtl, R.FCr;
    hide R.ExecMem, R.ExecAlu, R.ExecField, R.ExecBranch, R.ExecTrap, R.ExecSystem, R.DecodeBranch, Agree;
    hide MemOp, AluImm, Control, Float, Branches, BranchCond, FieldsAndTraps, Triadic;
    FieldsAgree(w);
    TrapAgrees(m, p, R.TrapMn(SubOf(w)).value, w);
  }

  lemma TrapAgrees(m: Machine, p: R.State, mn: R.Mn, w: u32)
    requires Same(m, p) && Flat(m) && R.TrapMn(SubOf(w)) == Some(mn)
    ensures R.Valid(p) && Agree(m, FieldsAndTraps(m, w), R.ExecTrap(p, mn, w), mn)
  {
    hide OpOf, DOf, S1Of, S2Of, ImmOf, SubOf, VarOf, CtlSubOf, CrOf;
    hide R.FOp, R.FD, R.FS1, R.FS2, R.FImm, R.FSub, R.FVar, R.FCtl, R.FCr;
    hide R.BitSet, R.VectorOf, Bit, R.Cond, CondTrue, Field, FieldResult, R.Put;
    FieldsAgree(w);
    CondAgrees(DOf(w), Rr(m.core, S1Of(w)));
    BitTest(Rr(m.core, S1Of(w)), DOf(w));
    VectorAgrees(w);
  }

  lemma VectorAgrees(w: u32)
    ensures R.VectorOf(w) == w % 0x200
  {
    AndMask(w, 9);
    assert Pow2(9) == 512;
  }

  lemma FieldMatches(m: Machine, p: R.State, w: u32)
    requires Same(m, p) && Flat(m) && (OpOf(w) == 0x3C || OpOf(w) == 0x3D) && R.Bitfield(SubOf(w)).Some?
    ensures Matches(m, p, w)
  {
    hide OpOf, DOf, S1Of, S2Of, ImmOf, SubOf, VarOf, CtlSubOf, CrOf;
    hide R.FOp, R.FD, R.FS1, R.FS2, R.FImm, R.FSub, R.FVar, R.FCtl, R.FCr;
    hide R.ExecMem, R.ExecAlu, R.ExecBranch, R.ExecTrap, R.ExecSystem, MemOp, AluImm, Control, Float, Branches;
    hide BranchCond;
    hide R.DecodeBranch;
    hide And, Agree, Field, R.BitField, R.Deliver, FieldResult;
    FieldsAgree(w);
    var a, sub := Rr(m.core, S1Of(w)), SubOf(w);
    var f := if OpOf(w) == 0x3C then w else Rr(m.core, S2Of(w));
    FieldsAgree(f);
    FieldAgrees(sub, a, VarOf(f), S2Of(f));
    DeliverAgrees(m, p, DOf(w), Field(sub, a, VarOf(f), S2Of(f)),
                  R.BitField(R.Bitfield(sub).value, a, VarOf(f), S2Of(f)), R.Bitfield(sub).value);
  }

  lemma TriadicMemMatches(m: Machine, p: R.State, w: u32)
    requires Same(m, p) && Flat(m) && OpOf(w) == 0x3D && SubOf(w) < 0x10 && InScope(m, w)
    ensures Matches(m, p, w)
  {
    hide OpOf, DOf, S1Of, S2Of, ImmOf, SubOf, VarOf, CtlSubOf, CrOf;
    hide R.FOp, R.FD, R.FS1, R.FS2, R.FImm, R.FSub, R.FVar, R.FCtl, R.FCr;
    hide R.ExecAlu, R.ExecField, R.ExecBranch, R.ExecTrap, R.ExecSystem, MemOp, AluImm, Control, Float;
    hide Branches, BranchCond, FieldsAndTraps;
    hide R.DecodeBranch;
    hide And, Agree, MemOp, R.Mem, MemScope, Wrap;
    FieldsAgree(w);
    var a, b, sub := Rr(m.core, S1Of(w)), Rr(m.core, S2Of(w)), SubOf(w);
    var mn := R.LoadStore(sub).value;
    assert R.ScaleOf(mn) == Some(SCALE[sub]);
    MaskIsWrap(b * SCALE[sub]);
    ScaledBit(VarOf(w));
    MaskIsWrap(a + if VarOf(w) >= 0x10 then Wrap(b * SCALE[sub]) else b);
    MemAgrees(m, p, sub, DOf(w), Indexed(m, w));
  }

  lemma ScaledBit(v: Reg5)
    ensures And(v, 0x10) != 0 <==> v >= 0x10
  {
    assert Pow2(4) == 16;
    AndBit(v, 4);
  }

  lemma TriadicAluMatches(m: Machine, p: R.State, w: u32)
    requires Same(m, p) && Flat(m) && OpOf(w) == 0x3D && 0x10 <= SubOf(w) < 0x20 && R.TriadicMn(SubOf(w)).Some?
    requires InScope(m, w)
    ensures Matches(m, p, w)
  {
    hide OpOf, DOf, S1Of, S2Of, ImmOf, SubOf, VarOf, CtlSubOf, CrOf;
    hide R.FOp, R.FD, R.FS1, R.FS2, R.FImm, R.FSub, R.FVar, R.FCtl, R.FCr;
    hide R.ExecMem, R.ExecField, R.ExecBranch, R.ExecTrap, R.ExecSystem, MemOp, AluImm, Control, Float;
    hide Branches, BranchCond, FieldsAndTraps;
    hide R.DecodeBranch;
    hide And, Agree, Arith, AluTriadic, R.Logic, R.Calc, Result, R.Deliver;
    FieldsAgree(w);
    var a, b, sub := Rr(m.core, S1Of(w)), Rr(m.core, S2Of(w)), SubOf(w);
    var mn := R.TriadicMn(sub).value;
    if sub < 0x18 {
      LogicTriadicAgrees(sub, a, b);
      TriadicLogicIsValue(sub, a, b);
      DeliverAgrees(m, p, DOf(w), AluTriadic(sub, a, b), R.Logic(mn, false, a, b), mn);
    } else {
      ArithAgrees(sub, a, b);
      ArithIsLogicFree(sub, a, b);
      DeliverAgrees(m, p, DOf(w), Arith(sub, a, b), R.Calc(mn, a, b), mn);
    }
  }

  lemma TriadicLogicIsValue(sub: Sub6, a: u32, b: u32)
    requires sub in {0x10, 0x11, 0x14, 0x15, 0x16, 0x17}
    ensures AluTriadic(sub, a, b).Val?
  {
    hide And, Or, Xor;
  }

  lemma JumpMatches(m: Machine, p: R.State, w: u32)
    requires Same(m, p) && Flat(m) && OpOf(w) == 0x3D && 0x30 <= SubOf(w) <= 0x33
    ensures Matches(m, p, w)
  {
    hide OpOf, DOf, S1Of, S2Of, ImmOf, SubOf, VarOf, CtlSubOf, CrOf;
    hide R.FOp, R.FD, R.FS1, R.FS2, R.FImm, R.FSub, R.FVar, R.FCtl, R.FCr;
    hide R.ExecMem, R.ExecAlu, R.ExecField, R.ExecTrap, R.ExecSystem, MemOp, AluImm, Control, Float, Branches;
    hide BranchCond, FieldsAndTraps;
    hide R.DecodeBranch;
    hide And, R.BitSet, R.Put, Link;
    FieldsAgree(w);
    ClearLowBits(Rr(m.core, S2Of(w)));
    LinkAgrees(m, p, SubOf(w) % 2 == 1);
  }

  lemma ClearLowBits(b: u32)
    ensures And(b, Not(3)) == b / 4 * 4
  {
    hide And;
    AndStep(b, -4);
    AndStep(b / 2, -2);
    AndMinusOne(b / 2 / 2);
  }

  lemma ExecMatches(m: Machine, p: R.State, w: u32)
    requires Same(m, p) && Flat(m) && Identified(w) && InScope(m, w)
    ensures Matches(m, p, w)
  {
    hide Matches, InScope;
    var op, sub := OpOf(w), SubOf(w);
    if op < 0x20 { ImmediateMatches(m, p, w); }
    else if op == 0x20 { ControlMatches(m, p, w); }
    else if op <= 0x37 { BranchMatches(m, p, w); }
    else if op == 0x3A || op == 0x3B { CondMatches(m, p, w); }
    else if op == 0x3C && R.TrapMn(sub).Some? { TrapMatches(m, p, w); }
    else if op == 0x3C { FieldMatches(m, p, w); }
    else if sub < 0x10 { TriadicMemMatches(m, p, w); }
    else if sub < 0x20 { TriadicAluMatches(m, p, w); }
    else if sub < 0x30 { FieldMatches(m, p, w); }
    else { JumpMatches(m, p, w); }
  }

  // --- steps and runs -------------------------------------------------------------

  /** A state whose next step is compared. */
  ghost predicate StepScope(m: Machine) {
    Flat(m) && Clear(m.core.pc, 4) && m.core.pc + 4 < TWO32 && Identified(FetchedWord(m)) && InScope(m, FetchedWord(m))
  }

  ghost predicate SameOutcome(m: Machine, c: Outcome, p: R.Outcome) {
    match p
    case Stepped(q) => c.Done? && ToPy(c.m) == q && Flat(c.m)
    case Trap(vector, pc) => pc == m.core.pc && c == Trapped(Issued(m), Wrap(vector), m.core.pc)
  }

  lemma FetchAgrees(m: Machine)
    requires Flat(m) && Clear(m.core.pc, 4)
    ensures FetchedWord(m) == R.Word(m.mmu.mem, m.core.pc)
    ensures Flat(Issued(m)) && Same(Issued(m), ToPy(m)) && Issued(m).core.count == m.core.count + 1
    ensures !Fetch(m).v.fault.pending && Issued(m).core.r == m.core.r && Issued(m).tcsMbox == m.tcsMbox
  {
    hide R32, R.Word;
    WordsAgree(m.mmu.mem, m.core.pc, 0);
  }

  lemma SequenceAgrees(m: Machine, p: R.State, mn: R.Mn, to: Option<int>, br: Branch)
    requires Same(m, p) && m.core.count == p.count && m.core.pc + 4 < TWO32
    requires to.Some? ==> 0 <= to.value < TWO32
    requires br == match to {
      case None => Next
      case Some(t) => if 0 <= t < TWO32 then Jump(t, R.Delayed(mn)) else Next
    }
    ensures ToPy(m.(core := Sequence(m.core, br))) == R.Sequenced(p, mn, to, p.pc + 4)
  {
    hide R.Delayed;
  }

  /** Every step the decoder identifies: same registers, memory, pc, pending
      branch and count, or the same trap from an unchanged state. */
  lemma StepRefines(m: Machine)
    requires StepScope(m)
    ensures R.Valid(ToPy(m)) && SameOutcome(m, Instruction(m), R.Step(ToPy(m)))
  {
    hide Execute, R.Exec, R.Decode, Identified, InScope, FetchedWord, R.Word, Issued, Fetch, Clear, Sequence;
    hide R.Sequenced;
    FetchAgrees(m);
    var w, i, p := FetchedWord(m), Issued(m), ToPy(m);
    ScopeCarries(m, i, w);
    ExecMatches(i, p, w);
    var ins := R.Decode(w, p.pc).value;
    match R.Exec(p, ins, w) {
      case Raised(vector) =>
      case Ran(q, to) =>
        var e := Execute(i, w);
        CountKept(p, ins, w);
        SequenceAgrees(e.m, q.(count := q.count + 1), ins.mn, to, e.br);
    }
  }

  lemma ScopeCarries(m: Machine, i: Machine, w: u32)
    requires InScope(m, w) && i.core.r == m.core.r && i.tcsMbox == m.tcsMbox
    ensures InScope(i, w)
  {
    hide Wrap, Clear;
  }

  lemma CountKept(p: R.State, ins: R.Insn, w: int)
    requires R.Valid(p)
    ensures var s := R.Exec(p, ins, w); s.Ran? ==> s.p.count == p.count
  {
    hide And, R.BitSet, R.Logic, R.Calc, R.BitField, R.Cond, R.PutBytes, R.PackWord, R.Word, R.Half;
    R.FieldRanges(w);
  }

  /** States reached by running while every step is compared and none traps. */
  ghost predicate RunScope(m: Machine, n: nat)
    decreases n
  {
    n == 0 || (StepScope(m) && (Instruction(m).Done? ==> RunScope(Instruction(m).m, n - 1)))
  }

  function CRun(m: Machine, n: nat): Outcome
    decreases n
  {
    if n == 0 then Done(m) else match Instruction(m) case Done(m') => CRun(m', n - 1) case o => o
  }

  function PyRun(p: R.State, n: nat): R.Outcome
    requires R.Valid(p)
    decreases n
  {
    if n == 0 then R.Stepped(p) else
    match R.Step(p)
    case Stepped(q) => if R.Valid(q) then PyRun(q, n - 1) else R.Stepped(q)
    case o => o
  }

  /** Whole runs: the same final state, or the same trap after the same steps. */
  lemma {:induction false} RunRefines(m: Machine, n: nat)
    requires Flat(m) && RunScope(m, n)
    ensures R.Valid(ToPy(m))
    ensures match PyRun(ToPy(m), n)
      case Stepped(q) => CRun(m, n).Done? && ToPy(CRun(m, n).m) == q
      case Trap(vector, pc) => CRun(m, n).Trapped? && CRun(m, n).vector == Wrap(vector) && CRun(m, n).tpc == pc
    decreases n
  {
    hide Instruction, R.Step, StepScope, Flat;
    if n == 0 {
    } else {
      StepRefines(m);
      if Instruction(m).Done? { RunRefines(Instruction(m).m, n - 1); }
    }
  }

  /** Encodings the decoder rejects that the C dispatch still executes: unknown
      sub-operations of the bit-field groups, reserved branch conditions, and
      the C numbering of ff1/ff0. */
  predicate Tolerated(w: u32) {
    var op, sub := OpOf(w), SubOf(w);
    op == 0x3C || op == 0x3A || op == 0x3B || (op == 0x3D && (0x20 <= sub <= 0x2A || sub == 0x3A || sub == 0x3B))
  }

  /** On a word the decoder rejects, Python raises -1; C reports a bad
      instruction exactly when the word is not one of those. */
  lemma RejectedWords(m: Machine)
    requires Flat(m) && Clear(m.core.pc, 4) && R.Decode(FetchedWord(m), m.core.pc) == None
    ensures R.Step(ToPy(m)) == R.Trap(-1, m.core.pc)
    ensures Instruction(m) == Trapped(Issued(m), BAD, m.core.pc) <==> !Tolerated(FetchedWord(m))
  {
    FetchAgrees(m);
    RejectedExecute(Issued(m), FetchedWord(m), m.core.pc);
  }

  lemma RejectedExecute(m: Machine, w: u32, pc: u32)
    requires R.Decode(w, pc) == None
    ensures Execute(m, w) == Trap(m, BAD) <==> !Tolerated(w)
    ensures Tolerated(w) ==> Execute(m, w).Ok?
  {
    hide OpOf, DOf, S1Of, S2Of, ImmOf, SubOf, VarOf, CtlSubOf, CrOf;
    hide R.FOp, R.FD, R.FS1, R.FS2, R.FImm, R.FSub, R.FVar, R.FCtl, R.FCr;
    hide MemOp, Field, HighBit, CondTrue, R.Target, R.SignedBits, Arith, Branches, And, Link, AluTriadic, Result;
    FieldsAgree(w);
    if OpOf(w) == 0x3D && 0x10 <= SubOf(w) < 0x20 { RejectedAlu(m, w); }
  }

  /** And of the words the decoder knows, floating point included, C takes none for a bad
      instruction but tbnd, which it does not have, and the numbers the decoder gives ff1
      and ff0, which C has elsewhere. */
  lemma AcceptedWords(m: Machine, w: u32, pc: u32)
    requires R.Decode(w, pc).Some?
    ensures Execute(m, w) == Trap(m, BAD) <==> R.Decode(w, pc).value.mn in {R.Tbnd, R.Ff1, R.Ff0}
  {
    hide OpOf, DOf, S1Of, S2Of, ImmOf, SubOf, VarOf, CtlSubOf, CrOf;
    hide R.FOp, R.FD, R.FS1, R.FS2, R.FImm, R.FSub, R.FVar, R.FCtl, R.FCr;
    hide MemOp, Field, HighBit, CondTrue, R.Target, R.SignedBits, Branches, Triadic, And, AluImm, Result;
    FieldsAgree(w);
    var op, d, a := OpOf(w), DOf(w), Rr(m.core, S1Of(w));
    if op < 0x10 {
      NoBadAccess(m, op, d, Wrap(a + ImmOf(w)));
    } else if op < 0x20 {
      NoBadImmediate(m, op, d, a, ImmOf(w));
    } else if 0x30 <= op <= 0x37 {
      NoBadBranch(m, w);
    } else if op == 0x3D {
      AcceptedTriadic(m, w);
    }
  }

  lemma NoBadAccess(m: Machine, sub: Sub6, d: Reg5, ea: u32)
    requires sub < 0x10
    ensures !MemOp(m, sub, d, ea).Trap?
  {
    hide Translate, Transfer;
  }

  lemma NoBadImmediate(m: Machine, op: Sub6, d: Reg5, a: u32, b: u16)
    requires 0x10 <= op < 0x20
    ensures Result(m, d, AluImm(op, a, b)) != Trap(m, BAD)
  {
    hide And, Or, Xor, Product, CmpBits, Truncated;
  }

  lemma NoBadBranch(m: Machine, w: u32)
    requires 0x30 <= OpOf(w) <= 0x37
    ensures Branches(m, w).Ok?
  {
    hide OpOf, Bit, Link, Disp26, Disp16;
  }

  lemma AcceptedTriadic(m: Machine, w: u32)
    requires R.TriadicMn(SubOf(w)).Some?
    ensures Triadic(m, w) == Trap(m, BAD) <==> R.TriadicMn(SubOf(w)).value in {R.Tbnd, R.Ff1, R.Ff0}
  {
    hide DOf, S1Of, S2Of, SubOf, VarOf, MemOp, Field, HighBit, AluTriadic, Link, RteTarget, Result;
    var sub, d, a, b := SubOf(w), DOf(w), Rr(m.core, S1Of(w)), Rr(m.core, S2Of(w));
    if sub < 0x10 {
      NoBadAccess(m, sub, d, Wrap(a + if VarOf(w) >= 0x10 then Wrap(b * SCALE[sub]) else b));
    } else if sub < 0x20 {
      AcceptedAlu(m, sub, d, a, b);
    }
  }

  lemma AcceptedAlu(m: Machine, sub: Sub6, d: Reg5, a: u32, b: u32)
    requires 0x10 <= sub < 0x20 && R.TriadicMn(sub).Some?
    ensures Result(m, d, AluTriadic(sub, a, b)) != Trap(m, BAD)
  {
    hide And, Or, Xor, Product, CmpBits, Truncated;
  }

  lemma RejectedAlu(m: Machine, w: u32)
    requires 0x10 <= SubOf(w) < 0x20 && R.TriadicMn(SubOf(w)) == None
    ensures AluTriadic(SubOf(w), Rr(m.core, S1Of(w)), Rr(m.core, S2Of(w))) == NoOp
    ensures Result(m, DOf(w), NoOp) == Trap(m, BAD)
  {
    hide And, Or, Xor, Arith;
  }

  lemma NoSuchField(pc: u32)
    ensures R.Decode(0xF000_0000, pc) == None && Tolerated(0xF000_0000)
  {
    hide And;
    FieldsAgree(0xF000_0000);
  }

  /** A bit-field word with no sub-operation, stored at the pc: C runs it as a
      no-op, Python refuses it. */
  lemma ToleratedExample(m: Machine)
    requires Flat(m) && Clear(m.core.pc, 4)
    ensures var n := SetMem(m, W32(FoldOf(false), m.mmu.mem, m.core.pc, 0xF000_0000));
      Instruction(n).Done? && R.Step(ToPy(n)) == R.Trap(-1, n.core.pc)
  {
    hide R32, W32, Execute, FoldOf, R.Decode, R.Step, Clear, Tolerated;
    var n := SetMem(m, W32(FoldOf(false), m.mmu.mem, m.core.pc, 0xF000_0000));
    CphysIsPageFold(false);
    WordRoundTrip(FoldOf(false), m.mmu.mem, m.core.pc, 0xF000_0000);
    NoSuchField(n.core.pc);
    assert FetchedWord(n) == 0xF000_0000;
    RejectedWords(n);
    RejectedExecute(Issued(n), 0xF000_0000, n.core.pc);
  }
}
