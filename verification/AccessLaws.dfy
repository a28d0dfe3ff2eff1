/** What instructions do to bytes and registers, in the order the processor has them:
    byte order of memory, the front end's mailbox, the bit-search and control-register
    instructions, and the registers of a kernel call. */
module AccessLaws {
  import opened Words
  import opened Memory
  import opened Mmu
  import opened Cpu
  import opened TranslationLaws
  import opened Processor

  // --- addresses -----------------------------------------------------------------------

  /** Under the real memory model the addresses from 2 to 3 GB are RAM from 0 on; the 64
      windows of 8 KB from 0xF9000000 on are one page pair of the kernel; every other
      address is itself. */
  lemma AddressesFold(realmm: bool, a: u32)
    ensures realmm && 0x8000_0000 <= a < 0xC000_0000 ==> Cphys(realmm, a) == a - 0x8000_0000
    ensures 0xF900_0000 <= a < 0xF908_0000 ==>
      Cphys(realmm, a) == (if realmm then 0x1_4000 else 0xC001_4000) + (a - 0xF900_0000) % 8192
    ensures !(realmm && 0x8000_0000 <= a < 0xC000_0000) && !(0xF900_0000 <= a < 0xF908_0000) ==> Cphys(realmm, a) == a
  {
  }

  // --- byte order ----------------------------------------------------------------------

  /** Most significant byte first: a word is the four bytes from its address on. */
  lemma WordIsBytes(f: Fold, m: Store, a: u32)
    ensures R32(f, m, a) ==
      0x100_0000 * R8(f, m, a) + 0x1_0000 * R8(f, m, Wrap(a + 1)) +
      0x100 * R8(f, m, Wrap(a + 2)) + R8(f, m, Wrap(a + 3))
  {
    hide Rd;
    BigFour(R8(f, m, a), R8(f, m, Wrap(a + 1)), R8(f, m, Wrap(a + 2)), R8(f, m, Wrap(a + 3)));
  }

  lemma HalfIsBytes(f: Fold, m: Store, a: u32)
    ensures R16(f, m, a) == 0x100 * R8(f, m, a) + R8(f, m, Wrap(a + 1))
  {
    hide Rd;
  }

  /** A halfword stored reads back, and no byte but its two is changed. */
  lemma HalfRoundTrip(f: Fold, m: Store, a: u32, v: u16)
    requires PageFold(f)
    ensures R16(f, W16(f, m, a, v), a) == v
    ensures forall c :: c != f(a) && c != f(Wrap(a + 1)) ==> Rd(W16(f, m, a, v), c) == Rd(m, c)
  {
    assert Lane(f, a, 0) == f(a);
    WordBytesDistinct(f, a, 0, 1);
  }

  // --- the mailbox -----------------------------------------------------------------------

  /** What the front end leaves: the command taken, and the answer ready five bytes on. */
  ghost predicate Answered(before: View, after: View, mbox: u32) {
    var f := before.cfg.fold;
    after == before.(mem := after.mem) && R8(f, after.mem, mbox) == 0 && R8(f, after.mem, Wrap(mbox + 5)) == 1 &&
    forall c :: c != f(mbox) && c != f(Wrap(mbox + 5)) ==> Rd(after.mem, c) == Rd(before.mem, c)
  }

  /** A command byte stored in the mailbox is answered; zero, or a byte anywhere else,
      is only stored. */
  lemma MailboxAnswers(m: Machine, d: Reg5, pa: u32)
    requires PageFold(m.mmu.cfg.fold)
    ensures var f, b := m.mmu.cfg.fold, Rr(m.core, d) % 256;
      var stored := m.mmu.(mem := W8(f, m.mmu.mem, pa, b));
      var z := Transfer(m, 0x0B, d, pa);
      if pa == m.tcsMbox && b != 0 then Answered(stored, z.mmu, pa) else z.mmu == stored
  {
    var f := m.mmu.cfg.fold;
    MailboxApart(f, m.tcsMbox);
  }

  lemma MailboxApart(f: Fold, a: u32)
    requires PageFold(f)
    ensures f(a) != f(Wrap(a + 5))
  {
    var b := Wrap(a + 5);
    WrapOffset(a + 5);
    OffsetsDiffer(a, 0, 5);
    assert f(a) % 4096 == a % 4096 && f(b) % 4096 == b % 4096;
  }

  /** A word stored there is a command if its first byte is not zero; the unit's
      registers are elsewhere. */
  lemma MailboxWord(m: Machine, val: u32)
    requires PageFold(m.mmu.cfg.fold) && m.sysmode
    requires CmmuBase(m.tcsMbox) == None && m.tcsMbox != 0xE078_0018
    ensures var f := m.mmu.cfg.fold;
      var stored := m.mmu.(mem := W32(f, m.mmu.mem, m.tcsMbox, val));
      var z := DevWrite32(m, m.tcsMbox, val);
      if val >= 0x100_0000 then Answered(stored, z.mmu, m.tcsMbox) else z.mmu == stored
  {
    hide W32, Flushes, ClockWritten;
    var f, a := m.mmu.cfg.fold, m.tcsMbox;
    MailboxApart(f, a);
    FirstByte(f, m.mmu.mem, a, val);
  }

  lemma FirstByte(f: Fold, m: Store, a: u32, val: u32)
    requires PageFold(f)
    ensures R8(f, W32(f, m, a, val), a) == val / 0x100_0000
  {
    assert Lane(f, a, 0) == f(a);
    WordBytesDistinct(f, a, 0, 1);
    WordBytesDistinct(f, a, 0, 2);
    WordBytesDistinct(f, a, 0, 3);
  }

  // --- bit search ---------------------------------------------------------------------------

  /** The highest set bit: 32 for no bit at all, else the power of two the number lies
      at or above and below twice of. */
  lemma HighBitIs(b: u32)
    ensures HighBit(b) == 32 <==> b == 0
    ensures b != 0 ==> Pow2(HighBit(b)) <= b < Pow2(HighBit(b) + 1)
  {
    if b != 0 {
      Pow32();
      HighBitBelowIs(b, 31);
    }
  }

  lemma {:induction false} HighBitBelowIs(b: u32, i: nat)
    requires i < 32 && 0 < b < Pow2(i + 1)
    ensures HighBitBelow(b, i) <= i && Pow2(HighBitBelow(b, i)) <= b < Pow2(HighBitBelow(b, i) + 1)
    decreases i
  {
    if i == 0 {
      assert Pow2(1) == 2 && Pow2(0) == 1;
    } else {
      var p := Pow2(i);
      assert Pow2(i + 1) == 2 * p;
      TopBitOf(b, p);
      if !Bit(b, i) { HighBitBelowIs(b, i - 1); }
    }
  }

  lemma TopBitOf(b: nat, p: nat)
    requires 0 < p && b < 2 * p
    ensures b / p % 2 == 1 <==> b >= p
  {
    if b < p { DivModUnique(b, p, 0, b); } else { DivModUnique(b, p, 1, b - p); }
  }

  /** A triadic word. */
  function TriadicWord(d: Reg5, s1: Reg5, sub: Sub6, low: nat): u32
    requires low < 0x400
  {
    0xF400_0000 + d * 0x20_0000 + s1 * 0x1_0000 + sub * 0x400 + low
  }

  lemma TriadicFields(d: Reg5, s1: Reg5, sub: Sub6, low: nat)
    requires low < 0x400
    ensures var w := TriadicWord(d, s1, sub, low);
      OpOf(w) == 0x3D && DOf(w) == d && S1Of(w) == s1 && SubOf(w) == sub && S2Of(w) == low % 32
  {
    var w := TriadicWord(d, s1, sub, low);
    var x := sub * 0x400 + low;
    var y := s1 * 0x1_0000 + x;
    var z := d * 0x20_0000 + y;
    DivModUnique(w, 0x400_0000, 0x3D, z);
    DivModUnique(w, 0x20_0000, 0x7A0 + d, y);
    DivModUnique(0x7A0 + d, 32, 0x3D, d);
    DivModUnique(w, 0x1_0000, 0xF400 + 32 * d + s1, x);
    DivModUnique(0xF400 + 32 * d + s1, 32, 0x7A0 + d, s1);
    DivModUnique(w, 0x400, 0x3D_0000 + 0x800 * d + 0x40 * s1 + sub, low);
    DivModUnique(0x3D_0000 + 0x800 * d + 0x40 * s1 + sub, 64, 0xF400 + 32 * d + s1, sub);
    assert w == 32 * (0x7A0_0000 + 0x1_0000 * d + 0x800 * s1 + 32 * sub + low / 32) + low % 32;
    DivModUnique(w, 32, 0x7A0_0000 + 0x1_0000 * d + 0x800 * s1 + 32 * sub + low / 32, low % 32);
  }

  /** ff1 finds the highest set bit of its source, ff0 the highest clear one. */
  lemma FindFirst(m: Machine, d: Reg5, s: Reg5)
    requires d != 0
    ensures var e := Execute(m, TriadicWord(d, 0, 0x3A, s));
      e.Ok? && e.br == Next && e.m == m.(core := m.core.(r := m.core.r[d := HighBit(Rr(m.core, s))]))
    ensures var e := Execute(m, TriadicWord(d, 0, 0x3B, s));
      e.Ok? && e.br == Next && e.m == m.(core := m.core.(r := m.core.r[d := HighBit(0xFFFF_FFFF - Rr(m.core, s))]))
  {
    hide HighBit, OpOf, DOf, S1Of, S2Of, SubOf, TriadicWord;
    TriadicFields(d, 0, 0x3A, s);
    TriadicFields(d, 0, 0x3B, s);
  }

  // --- division ----------------------------------------------------------------------------

  /** Signed division stores the quotient rounded toward zero, traps on zero, and is
      undefined exactly where that quotient does not fit in 32 bits. */
  lemma SignedDivision(a: u32, b: u32)
    ensures SignedQuotient(a, b).DivZero? <==> b == 0
    ensures b != 0 ==>
      var q := Truncated(Signed(a), Signed(b));
      if -0x8000_0000 <= q < 0x8000_0000 then SignedQuotient(a, b).Val? && Signed(SignedQuotient(a, b).v) == q
      else SignedQuotient(a, b).Undefined?
  {
    if b != 0 {
      var x, y := Signed(a), Signed(b);
      MagnitudeQuotient(x, y);
      DivShrinks(Abs(x), Abs(y));
      var q := Truncated(x, y);
      if -0x8000_0000 <= q < 0x8000_0000 { SignedWrap(q); }
      if Abs(y) >= 2 {
        HalvesAtLeast(Abs(x), Abs(y));
      }
    }
  }

  lemma HalvesAtLeast(x: nat, y: nat)
    requires y >= 2
    ensures 2 * (x / y) <= x
  {
    var q := x / y;
    assert x == y * q + x % y;
    MulAtLeast(q, y - 1);
    assert y * q == 2 * q + (y - 2) * q;
  }

  lemma SignedWrap(q: int)
    requires -0x8000_0000 <= q < 0x8000_0000
    ensures Signed(Wrap(q)) == q
  {
    if q < 0 { DivModUnique(q, TWO32, -1, q + TWO32); }
  }

  // --- control registers ------------------------------------------------------------------

  function ControlWord(d: Reg5, s1: Reg5, sub: Reg5, cr: Sub6): u32 {
    0x8000_0000 + d * 0x20_0000 + s1 * 0x1_0000 + sub * 0x800 + cr * 32
  }

  lemma ControlFields(d: Reg5, s1: Reg5, sub: Reg5, cr: Sub6)
    ensures var w := ControlWord(d, s1, sub, cr);
      OpOf(w) == 0x20 && DOf(w) == d && S1Of(w) == s1 && CtlSubOf(w) == sub && CrOf(w) == cr
  {
    var w := ControlWord(d, s1, sub, cr);
    var x := cr * 32;
    var y := sub * 0x800 + x;
    var z := s1 * 0x1_0000 + y;
    DivModUnique(w, 0x400_0000, 0x20, d * 0x20_0000 + z);
    DivModUnique(w, 0x20_0000, 0x400 + d, z);
    DivModUnique(0x400 + d, 32, 0x20, d);
    DivModUnique(w, 0x1_0000, 0x8000 + 32 * d + s1, y);
    DivModUnique(0x8000 + 32 * d + s1, 32, 0x400 + d, s1);
    DivModUnique(w, 0x800, 0x10_0000 + 0x400 * d + 32 * s1 + sub, x);
    DivModUnique(0x10_0000 + 0x400 * d + 32 * s1 + sub, 32, 0x8000 + 32 * d + s1, sub);
    DivModUnique(w, 32, 0x400_0000 + 0x1_0000 * d + 0x800 * s1 + 64 * sub + cr, 0);
    DivModUnique(0x400_0000 + 0x1_0000 * d + 0x800 * s1 + 64 * sub + cr, 64,
                 0x10_0000 + 0x400 * d + 32 * s1 + sub, cr);
  }

  /** Load, store and exchange of a control register, the floating-point forms with
      them: any of the 64, and the exchange takes the old value. */
  lemma ControlTransfers(m: Machine, d: Reg5, s: Reg5, sub: Reg5, cr: Sub6)
    requires d != 0 && sub in {0x08, 0x09, 0x10, 0x11, 0x18, 0x19}
    ensures var e, was, given := Execute(m, ControlWord(d, s, sub, cr)), m.core.cr[cr], Rr(m.core, s);
      && e.Ok? && e.br == Next
      && e.m.core.cr == (if sub < 0x10 then m.core.cr else m.core.cr[cr := given])
      && e.m.core.r == (if sub < 0x10 || sub >= 0x18 then m.core.r[d := was] else m.core.r)
      && e.m == m.(core := m.core.(r := e.m.core.r, cr := e.m.core.cr))
  {
    hide OpOf, DOf, S1Of, CtlSubOf, CrOf, ControlWord;
    ControlFields(d, s, sub, cr);
  }

  // --- return from exception ----------------------------------------------------------------

  /** rte gives back the PSR and goes on at the first of the three pipeline registers
      that has its valid bit, bit 1, or at the last, without its two low bits. */
  lemma ReturnPicks(m: Machine, d: Reg5, s1: Reg5)
    ensures var cr := m.core.cr;
      var x := if And(cr[4], 2) != 0 then cr[4] else if And(cr[5], 2) != 0 then cr[5] else cr[6];
      Execute(m, TriadicWord(d, s1, 0x3F, 0)) ==
        Ok(m.(core := m.core.(cr := cr[1 := cr[2]])), Jump(And32(x, 0xFFFF_FFFC), false))
  {
    hide And, OpOf, DOf, S1Of, S2Of, SubOf, TriadicWord;
    TriadicFields(d, s1, 0x3F, 0);
    OneBit(m.core.cr[4]);
    OneBit(m.core.cr[5]);
    WordBits(m.core.cr[4]);
    WordBits(m.core.cr[5]);
    WordBits(m.core.cr[6]);
  }

  lemma WordBits(x: u32)
    ensures And(x, 0xFFFF_FFFC) == x / 4 * 4
  {
    hide And;
    assert Pow2(2) == 4 && x == x / 4 * 4 + x % 4;
    AndHigh(x, 2);
    AndNot32(x, 3);
  }

  // --- a kernel call ----------------------------------------------------------------------

  /** Arguments in r2 to r6, the return address in r1, at the function; nothing else of
      the processor changed but that no branch is pending, and nothing else of the
      machine but that it is in a call. */
  lemma CallArguments(m: Machine, fn: u32, a2: u32, a3: u32, a4: u32, a5: u32, a6: u32)
    ensures var z := KcallEntry(m, fn, a2, a3, a4, a5, a6);
      var c, k := m.core, z.core;
      && k.pc == fn && !k.hasPending
      && k.r[1..7] == [0x00DE_AD00, a2, a3, a4, a5, a6]
      && k.r[7..] == c.r[7..] && k.r[0] == c.r[0] && k.cr == c.cr && k.count == c.count
      && z.inKcall && z == m.(core := k, inKcall := true)
  {
  }

  /** Instructions alone, n of them, one after the other; a trap is the last. */
  ghost predicate Follows(m: Machine, n: nat, z: Machine)
    decreases n
  {
    if n == 0 then z == m
    else m.core.pc != 0x00DE_AD00 && Instruction(m).Done? && Follows(Instruction(m).m, n - 1, z)
  }

  /** A call that runs into its return address within thirty million instructions is
      those instructions, with no interrupt between them. */
  lemma {:induction false} CallReturns(m: Machine, n: nat, z: Machine, limit: nat)
    requires m.inKcall && Follows(m, n, z) && z.core.pc == 0x00DE_AD00 && n <= limit
    ensures Called(m, limit) == Some(z)
    decreases n
  {
    hide Instruction;
    if n == 0 {
    } else {
      KcallStep(m);
      CallReturns(Instruction(m).m, n - 1, z, limit - 1);
    }
  }

  /** A trap ends it where it is, and so does the limit. */
  lemma CallStops(m: Machine, limit: nat)
    requires m.inKcall && m.core.pc != 0x00DE_AD00
    ensures limit == 0 ==> Called(m, limit) == Some(m)
    ensures limit > 0 && Instruction(m).Trapped? ==> Called(m, limit) == Some(Instruction(m).m)
    ensures KCALL_LIMIT == 30_000_000
  {
    hide Instruction;
    KcallStep(m);
  }
}
