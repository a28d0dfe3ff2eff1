/** The translation unit as the program runs it: cache banks and fault record
    updated in place, device mappings searched by loops. */
module MmuUnit {
  import opened Words
  import opened Memory
  import opened Mmu
  import opened TlbRuns

  class Unit {
    var cfg: Config
    var mem: Store
    var devmap: seq<DevPage>
    var scratch: u32
    var psr: u32
    var pc: u32
    var xlatWrite: bool
    var fault: Fault
    var misses: nat
    var missVa: u32
    var missPc: u32
    const dataBank: array<Entry>
    const codeBank: array<Entry>

    ghost predicate Valid()
      reads this
    {
      dataBank.Length == 4096 && codeBank.Length == 4096 && dataBank != codeBank
    }

    ghost function V(): View
      reads this
    {
      View(cfg, mem, devmap, scratch, psr, pc, xlatWrite, fault, misses, missVa, missPc)
    }

    ghost function T(): Tlb
      requires Valid()
      reads this, dataBank, codeBank
    {
      Tlb(dataBank[..], codeBank[..])
    }

    constructor (cfg: Config)
      ensures Valid() && fresh(dataBank) && fresh(codeBank)
      ensures T() == EmptyTlb()
      ensures V() == View(cfg, map[], [], 0, 0, 0, false, Fault(false, 0, false, false, 0, 0), 0, 0, 0)
    {
      this.cfg, mem, devmap, scratch, psr, pc := cfg, map[], [], 0, 0, 0;
      xlatWrite, fault, misses, missVa, missPc := false, Fault(false, 0, false, false, 0, 0), 0, 0, 0;
      dataBank := new Entry[4096](_ => NO_ENTRY);
      codeBank := new Entry[4096](_ => NO_ENTRY);
    }

    /** Empty both banks. */
    method Flush()
      requires Valid()
      modifies dataBank, codeBank
      ensures T() == EmptyTlb()
    {
      for i := 0 to 4096
        invariant forall j :: 0 <= j < i ==> dataBank[j] == NO_ENTRY && codeBank[j] == NO_ENTRY
      {
        dataBank[i] := NO_ENTRY;
        codeBank[i] := NO_ENTRY;
      }
    }

    method Insert(code: bool, vpn: VPN, page: Frame, wp: bool)
      requires Valid()
      modifies dataBank, codeBank
      ensures T() == Fill(old(T()), code, vpn, page, wp)
    {
      var bank := if code then codeBank else dataBank;
      bank[vpn % 4096] := Entry(vpn + 0x8000_0000, page, wp);
    }

    /** First listed mapping of a page, or 0. */
    method DevmapLookup(vpn: VPN) returns (pa: Frame)
      ensures pa == DevLookup(devmap, vpn)
    {
      for i := 0 to |devmap|
        invariant DevLookup(devmap, vpn) == DevLookup(devmap[i..], vpn)
      {
        if devmap[i].va == FrameOf(vpn) { return devmap[i].pa; }
        assert devmap[i..][1..] == devmap[i + 1..];
      }
      pa := 0;
    }

    method DevmapAdd(va: Frame, pa: Frame)
      requires Valid()
      modifies this`devmap
      ensures devmap == DevAdd(old(devmap), va, pa, |old(devmap)| < 512)
    {
      hide DevAdd;
      ghost var d, room := devmap, |devmap| < 512;
      for i := 0 to |devmap|
        invariant devmap == d
        invariant DevAdd(d, va, pa, room) == d[..i] + DevAdd(d[i..], va, pa, room)
      {
        DevAddAt(d, i, va, pa, room);
        if devmap[i].va == va {
          devmap := devmap[..i] + [DevPage(va, pa)] + devmap[i + 1..];
          return;
        }
      }
      DevAddEnd(d, va, pa, room);
      if |devmap| < 512 { devmap := devmap + [DevPage(va, pa)]; }
    }

    /** Record a write fault on a protected page, unless one is pending. */
    method RaiseCow(va: u32) returns (fired: bool)
      requires Valid()
      modifies this`fault
      ensures fired == old(CowFires(V()))
      ensures V() == if fired then CowFault(old(V()), va) else old(V())
    {
      if !cfg.procexp || !xlatWrite || fault.pending { return false; }
      fault := Fault(true, va, false, true, 4, pc);
      fired := true;
    }

    method TableLookup(va: u32, code: bool, fallback: u32) returns (pa: u32)
      requires Valid()
      modifies dataBank, codeBank
      ensures Ans(pa, V(), T()) == TransTable(old(V()), old(T()), va, code, fallback)
    {
      hide Walk, R32, At;
      var e := (if code then codeBank else dataBank)[Vpn(va) % 4096];
      if e.tag == Vpn(va) + 0x8000_0000 {
        return At(e.page, if e.wp then va / 2 * 2 + 1 else va);
      }
      var view := View(cfg, mem, devmap, scratch, psr, pc, xlatWrite, fault, misses, missVa, missPc);
      match KernelPage(view, code, Vpn(va)) {
        case None => pa := fallback;
        case Some(p) =>
          Insert(code, Vpn(va), p.base, false);
          pa := At(p.base, va);
      }
    }

    method KernelLookup(va: u32, code: bool) returns (pa: u32)
      requires Valid() && KOFF <= va < DEVICES
      modifies dataBank, codeBank
      ensures Ans(pa, V(), T()) == TransKernel(old(V()), old(T()), va, code)
    {
      hide TransTable, DevLookup, At, Linear;
      var dp := DevmapLookup(Vpn(va));
      if dp != 0 { return At(dp, va); }
      if cfg.kdataOff != 0 {
        pa := TableLookup(va, code, Linear(cfg, va));
        return;
      }
      pa := va - KOFF;
    }

    /** Latch the scratch window's base the first time the kernel has set it. */
    method ScratchBase()
      requires Valid()
      modifies this`scratch, dataBank, codeBank
      ensures (V(), T()) == TransScratch(old(V()), old(T()))
    {
      hide TransKernel, R32, PageBase;
      if scratch == 0 && cfg.kdataOff != 0 {
        var pa := KernelLookup(SCRATCH_PTR, false);
        var w := R32(cfg.fold, mem, pa);
        if w >= DEVICES { scratch := PageBase(w); }
      }
    }

    method HighLookup(va: u32, code: bool) returns (pa: u32)
      requires Valid() && va >= DEVICES
      modifies this`scratch, dataBank, codeBank
      ensures Ans(pa, V(), T()) == TransHigh(old(V()), old(T()), va, code)
    {
      hide TransTable, TransScratch, ResolveTable;
      if InUarea(cfg, Vpn(va)) {
        var view := View(cfg, mem, devmap, scratch, psr, pc, xlatWrite, fault, misses, missVa, missPc);
        return ResolveTable(view, va, code, va);
      }
      ScratchBase();
      if !InScratch(scratch, Vpn(va)) { return va; }
      pa := TableLookup(va, code, va);
    }

    method UserLookup(va: u32, code: bool) returns (pa: u32)
      requires Valid()
      modifies this`fault, this`misses, this`missVa, this`missPc, dataBank, codeBank
      ensures Ans(pa, V(), T()) == TransUser(old(V()), old(T()), va, code)
    {
      hide WalkFb, Reg, At;
      var view := View(cfg, mem, devmap, scratch, psr, pc, xlatWrite, fault, misses, missVa, missPc);
      var apr := Apr(view, code);
      if apr % 2 == 0 { return va; }
      var e := (if code then codeBank else dataBank)[Vpn(va) % 4096];
      if e.tag == Vpn(va) + 0x8000_0000 {
        if e.wp {
          var fired := RaiseCow(va);
          if fired { return 0; }
        }
        return At(e.page, va);
      }
      match WalkFb(view, apr, Vpn(va), code) {
        case None =>
          if cfg.procexp && !fault.pending {
            fault := Fault(true, va, code, false, 4, pc);
            return 0;
          }
          misses, missVa, missPc := misses + 1, va, pc;
          pa := if cfg.realmm then cfg.fold(va) else va;
        case Some(p) =>
          Insert(code, Vpn(va), p.base, p.wp);
          if p.wp {
            var fired := RaiseCow(va);
            if fired { return 0; }
          }
          pa := At(p.base, va);
      }
    }

    method Translate(va: u32, code: bool) returns (pa: u32)
      requires Valid()
      modifies this`scratch, this`fault, this`misses, this`missVa, this`missPc, dataBank, codeBank
      ensures Ans(pa, V(), T()) == Mmu.Translate(old(V()), old(T()), va, code)
    {
      hide TransHigh, TransKernel, TransUser;
      if !cfg.translateOn { return va; }
      if cfg.realmm && va >= KOFF {
        if va >= DEVICES {
          pa := HighLookup(va, code);
        } else {
          pa := KernelLookup(va, code);
        }
        return;
      }
      pa := UserLookup(va, code);
    }

    /** A word store: memory, then whatever the unit's own registers do. */
    method StoreWord(a: u32, val: u32)
      requires Valid()
      modifies this`mem, dataBank, codeBank
      ensures V() == Mmu.StoreWord(old(V()), a, val)
      ensures T() == if Flushes(a, val) then EmptyTlb() else old(T())
    {
      hide W32, Probe;
      mem := W32(cfg.fold, mem, a, val);
      match CmmuBase(a) {
        case None =>
        case Some(base) =>
          if a == base + SCR { Command(base, val); }
          else if a == base + SAPR || a == base + UAPR { Flush(); }
      }
    }

    method Command(base: u32, cmd: u32)
      requires Valid() && (base == CODE_CMMU || base == DATA_CMMU)
      modifies this`mem, dataBank, codeBank
      ensures V() == if IsProbe(cmd) then Probe(old(V()), base, cmd) else old(V())
      ensures T() == if IsProbe(cmd) then old(T()) else EmptyTlb()
    {
      hide WalkFb, R32, W32, At, NodeZero;
      if !IsProbe(cmd) {
        Flush();
        return;
      }
      var f := cfg.fold;
      var va := R32(f, mem, base + SAR);
      var apr := R32(f, mem, base + if cmd == 0x24 then SAPR else UAPR);
      var view := View(cfg, mem, devmap, scratch, psr, pc, xlatWrite, fault, misses, missVa, missPc);
      match WalkFb(view, apr, Vpn(va), base == CODE_CMMU) {
        case Some(p) =>
          var pa := At(p.base, va);
          if KOFF <= va < DEVICES { pa := NodeZero(pa); }
          mem := W32(f, mem, base + SSR, 1);
          mem := W32(f, mem, base + SAR, pa);
        case None =>
          mem := W32(f, mem, base + SSR, 0);
          mem := W32(f, mem, base + PFAR, va);
      }
    }

    /** A disciplined run of the unit answers every access as the machine with
        no cache would. */
    method Drive(es: seq<Event>) returns (out: seq<u32>)
      requires Valid() && T() == EmptyTlb() && Disciplined(V(), iset{}, es)
      modifies this, dataBank, codeBank
      ensures Valid()
      ensures (out, V()) == RefRun(old(V()), es)
    {
      hide TlbRuns.Run, RefRun, Step, Disciplined;
      RunFromReset(V(), es);
      out := [];
      assert es[0..] == es;
      for i := 0 to |es|
        invariant Valid()
        invariant Run(old(V()), old(T()), es).0 == out + Run(V(), T(), es[i..]).0
        invariant Run(old(V()), old(T()), es).1 == Run(V(), T(), es[i..]).1
      {
        RunFrom(V(), T(), es, i, out);
        var pa := Perform(es[i]);
        out := out + [pa];
      }
      RunDone(V(), T(), es, out);
    }

    method Perform(e: Event) returns (pa: u32)
      requires Valid()
      modifies this, dataBank, codeBank
      ensures Valid() && Ans(pa, V(), T()) == Step(old(V()), old(T()), e)
    {
      hide Mmu.Translate, Mmu.StoreWord, DevAdd;
      pa := 0;
      match e {
        case Access(va, code, write) =>
          xlatWrite := write;
          pa := Translate(va, code);
          xlatWrite := false;
        case SetPsr(p) => psr := p;
        case SetPc(p) => pc := p;
        case Store(a, val) => StoreWord(a, val);
        case StoreByte(a, b) => mem := W8(cfg.fold, mem, a, b);
        case TakeFault => fault := fault.(pending := false);
        case MapDevice(page, to) => DevmapAdd(page, to);
        case SetBias(b) => cfg := cfg.(ktabBias := b);
      }
    }
  }

  lemma DevAddAt(d: seq<DevPage>, i: nat, va: Frame, pa: Frame, room: bool)
    requires i < |d|
    ensures d[..i] + DevAdd(d[i..], va, pa, room) ==
      if d[i].va == va then d[..i] + [DevPage(va, pa)] + d[i + 1..] else d[..i + 1] + DevAdd(d[i + 1..], va, pa, room)
  {
    assert d[i..][1..] == d[i + 1..] && d[..i + 1] == d[..i] + [d[i]];
  }

  lemma DevAddEnd(d: seq<DevPage>, va: Frame, pa: Frame, room: bool)
    ensures d[..|d|] + DevAdd(d[|d|..], va, pa, room) == d + if room then [DevPage(va, pa)] else []
  {
  }
}
