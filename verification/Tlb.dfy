/** The translation cache is invisible.  `Coherent` says every entry the next
    access could use holds what a walk would find now, but for a set of pages
    known to have changed; it is kept by every access to any other page, and
    such accesses get the answers and faults of a machine that always walks. */
module TlbTransparency {
  import opened Words
  import opened Memory
  import opened Mmu

  /** Whether an access to the page gets as far as looking in the cache. */
  predicate Consulted(v: View, code: bool, vpn: VPN) {
    && v.cfg.translateOn
    && if v.cfg.realmm && vpn >= 0xE_0000 then !InUarea(v.cfg, vpn) && InScratch(v.scratch, vpn)
       else if v.cfg.realmm && vpn >= 0xC_0000 then DevLookup(v.devmap, vpn) == 0 && v.cfg.kdataOff != 0
       else Apr(v, code) % 2 == 1
  }

  /** What the tables say of a page now. */
  function Current(v: View, code: bool, vpn: VPN): Option<Page> {
    if v.cfg.realmm && vpn >= 0xC_0000 then KernelPage(v, code, vpn) else WalkFb(v, Apr(v, code), vpn, code)
  }

  /** An entry sits where its page number puts it; device-space entries exist
      only once the scratch base is latched. */
  predicate Placed(v: View, i: nat, e: Entry) {
    e.tag == 0 ||
    (0x8000_0000 <= e.tag < 0x8010_0000 && (e.tag - 0x8000_0000) % 4096 == i &&
     (v.cfg.realmm && e.tag >= 0x800E_0000 ==> v.scratch != 0))
  }

  predicate Fresh(v: View, code: bool, e: Entry) {
    0x8000_0000 <= e.tag < 0x8010_0000 && Consulted(v, code, e.tag - 0x8000_0000) ==>
      Current(v, code, e.tag - 0x8000_0000) == Some(Page(e.page, e.wp))
  }

  /** Pages, of the code or the data side, changed since the last flush. */
  type Dirty = iset<(bool, VPN)>

  ghost predicate WellPlaced(v: View, t: Tlb) {
    forall code: bool, i: nat :: i < 4096 ==> Placed(v, i, BankOf(t, code)[i])
  }

  /** An entry of a page not known to have changed is fresh. */
  ghost predicate FreshOr(v: View, code: bool, e: Entry, d: Dirty) {
    0x8000_0000 <= e.tag < 0x8010_0000 && (code, e.tag - 0x8000_0000) !in d ==> Fresh(v, code, e)
  }

  ghost predicate Coherent(v: View, t: Tlb, d: Dirty) {
    && WellPlaced(v, t)
    && forall code: bool, i: nat :: i < 4096 ==> FreshOr(v, code, BankOf(t, code)[i], d)
  }

  /** An access that relies on no changed page: its own, nor the one the scratch
      base is read through. */
  ghost predicate Clean(v: View, d: Dirty, va: u32, code: bool) {
    (code, Vpn(va)) !in d &&
    (v.cfg.realmm && va >= DEVICES && v.scratch == 0 ==> (false, Vpn(SCRATCH_PTR)) !in d)
  }

  /** Two views whose tables, registers and scratch base are the same. */
  ghost predicate SameTables(v: View, v': View) {
    v'.cfg == v.cfg && v'.mem == v.mem && v'.devmap == v.devmap && v'.scratch == v.scratch && v'.psr == v.psr
  }

  lemma CoherentTransfers(v: View, v': View, t: Tlb, d: Dirty)
    requires Coherent(v, t, d) && SameTables(v, v')
    ensures Coherent(v', t, d)
  {
    hide Walk, DevLookup, R32, PageBase;
    forall code: bool, i: nat | i < 4096
      ensures Placed(v', i, BankOf(t, code)[i]) && FreshOr(v', code, BankOf(t, code)[i], d)
    {
      assert Placed(v, i, BankOf(t, code)[i]) && FreshOr(v, code, BankOf(t, code)[i], d);
    }
  }

  lemma FillCoherent(v: View, t: Tlb, code: bool, vpn: VPN, p: Page, d: Dirty)
    requires Coherent(v, t, d) && Current(v, code, vpn) == Some(p)
    requires v.cfg.realmm && vpn >= 0xE_0000 ==> v.scratch != 0
    ensures Coherent(v, Fill(t, code, vpn, p.base, p.wp), d)
  {
    hide Current, Consulted;
    var t' := Fill(t, code, vpn, p.base, p.wp);
    forall side: bool, i: nat | i < 4096
      ensures Placed(v, i, BankOf(t', side)[i]) && FreshOr(v, side, BankOf(t', side)[i], d)
    {
      if side != code || i != vpn % 4096 {
        assert BankOf(t', side)[i] == BankOf(t, side)[i];
        assert Placed(v, i, BankOf(t, side)[i]) && FreshOr(v, side, BankOf(t, side)[i], d);
      }
    }
  }

  /** Latching the scratch base opens a window no entry can already be in. */
  lemma LatchCoherent(v: View, t: Tlb, pa: u32, d: Dirty)
    requires Coherent(v, t, d) && v.scratch == 0
    ensures Coherent(Latch(v, pa), t, d)
  {
    hide Walk, DevLookup, R32, PageBase;
    var v' := Latch(v, pa);
    forall code: bool, i: nat | i < 4096
      ensures Placed(v', i, BankOf(t, code)[i]) && FreshOr(v', code, BankOf(t, code)[i], d)
    {
      assert Placed(v, i, BankOf(t, code)[i]) && FreshOr(v, code, BankOf(t, code)[i], d);
    }
  }

  /** A hit in a coherent cache is what the tables say. */
  lemma HitIsCurrent(v: View, t: Tlb, code: bool, vpn: VPN, d: Dirty)
    requires Coherent(v, t, d) && Consulted(v, code, vpn) && (code, vpn) !in d
    ensures var h := Lookup(t, code, vpn); h.Some? ==> Current(v, code, vpn) == Some(Page(h.value.page, h.value.wp))
  {
    hide Current, Consulted;
    assert FreshOr(v, code, BankOf(t, code)[vpn % 4096], d);
  }

  lemma TableTransparent(v: View, t: Tlb, va: u32, code: bool, fallback: u32, d: Dirty)
    requires Coherent(v, t, d) && Consulted(v, code, Vpn(va)) && v.cfg.realmm && va >= KOFF
    requires (code, Vpn(va)) !in d
    ensures var a := TransTable(v, t, va, code, fallback);
      a.pa == ResolveTable(v, va, code, fallback) && a.v == v && Coherent(v, a.t, d)
  {
    hide Walk, DevLookup, R32, PageBase, At, Coherent;
    HitIsCurrent(v, t, code, Vpn(va), d);
    if KernelPage(v, code, Vpn(va)).Some? {
      FillCoherent(v, t, code, Vpn(va), KernelPage(v, code, Vpn(va)).value, d);
    }
  }

  lemma KernelTransparent(v: View, t: Tlb, va: u32, code: bool, d: Dirty)
    requires Coherent(v, t, d) && v.cfg.translateOn && v.cfg.realmm && KOFF <= va < DEVICES
    requires (code, Vpn(va)) !in d
    ensures var a := TransKernel(v, t, va, code); a.pa == ResolveKernel(v, va, code) && a.v == v && Coherent(v, a.t, d)
  {
    hide Walk, DevLookup, R32, PageBase, At, Coherent, TransTable, ResolveTable, Linear;
    if DevLookup(v.devmap, Vpn(va)) == 0 && v.cfg.kdataOff != 0 {
      TableTransparent(v, t, va, code, Linear(v.cfg, va), d);
    }
  }

  lemma ScratchTransparent(v: View, t: Tlb, d: Dirty)
    requires Coherent(v, t, d) && v.cfg.translateOn && v.cfg.realmm
    requires v.scratch == 0 ==> (false, Vpn(SCRATCH_PTR)) !in d
    ensures var r := TransScratch(v, t); r.0 == ResolveScratch(v) && Coherent(r.0, r.1, d)
  {
    hide Coherent, TransKernel, ResolveKernel, Latch;
    if v.scratch == 0 && v.cfg.kdataOff != 0 {
      KernelTransparent(v, t, SCRATCH_PTR, false, d);
      var a := TransKernel(v, t, SCRATCH_PTR, false);
      LatchCoherent(v, a.t, a.pa, d);
    }
  }

  lemma HighTransparent(v: View, t: Tlb, va: u32, code: bool, d: Dirty)
    requires Coherent(v, t, d) && v.cfg.translateOn && v.cfg.realmm && va >= DEVICES && Clean(v, d, va, code)
    ensures var a := TransHigh(v, t, va, code); (a.pa, a.v) == ResolveHigh(v, va, code) && Coherent(a.v, a.t, d)
  {
    hide Coherent, TransTable, ResolveTable, ResolveScratch, TransScratch;
    if !InUarea(v.cfg, Vpn(va)) {
      ScratchTransparent(v, t, d);
      var r := TransScratch(v, t);
      ScratchKeepsConfig(v);
      if InScratch(r.0.scratch, Vpn(va)) {
        TableTransparent(r.0, r.1, va, code, va, d);
      }
    }
  }

  lemma ScratchKeepsConfig(v: View)
    ensures ResolveScratch(v).cfg == v.cfg
  {
    hide ResolveKernel, R32, PageBase;
  }

  lemma UserTransparent(v: View, t: Tlb, va: u32, code: bool, d: Dirty)
    requires Coherent(v, t, d) && v.cfg.translateOn && (v.cfg.realmm ==> va < KOFF) && (code, Vpn(va)) !in d
    ensures var a := TransUser(v, t, va, code); (a.pa, a.v) == ResolveUser(v, va, code) && Coherent(a.v, a.t, d)
  {
    hide Coherent, WalkFb, Apr, At, Fill;
    var a := TransUser(v, t, va, code);
    if Apr(v, code) % 2 == 1 {
      HitIsCurrent(v, t, code, Vpn(va), d);
      var w := WalkFb(v, Apr(v, code), Vpn(va), code);
      if w.Some? { FillCoherent(v, t, code, Vpn(va), w.value, d); }
      CoherentTransfers(v, a.v, a.t, d);
    }
  }

  /** One clean access: same address, same fault record, still coherent. */
  lemma TranslateTransparent(v: View, t: Tlb, va: u32, code: bool, d: Dirty)
    requires Coherent(v, t, d) && Clean(v, d, va, code)
    ensures var a := Translate(v, t, va, code); (a.pa, a.v) == Resolve(v, va, code) && Coherent(a.v, a.t, d)
  {
    hide Coherent, TransHigh, TransKernel, TransUser, ResolveHigh, ResolveKernel, ResolveUser;
    if v.cfg.translateOn {
      if v.cfg.realmm && va >= DEVICES { HighTransparent(v, t, va, code, d); }
      else if v.cfg.realmm && va >= KOFF { KernelTransparent(v, t, va, code, d); }
      else { UserTransparent(v, t, va, code, d); }
    }
  }

  // --- exactly when -----------------------------------------------------------

  predicate UserPage(v: View, vpn: VPN) { !(v.cfg.realmm && vpn >= 0xC_0000) }

  /** Every user entry the next access could use is current. */
  ghost predicate UserFresh(v: View, t: Tlb) {
    forall code: bool, i: nat :: i < 4096 ==>
      var e := BankOf(t, code)[i];
      0x8000_0000 <= e.tag < 0x8010_0000 && UserPage(v, e.tag - 0x8000_0000) ==> Fresh(v, code, e)
  }

  ghost predicate AgreesAt(v: View, t: Tlb, va: u32, code: bool) {
    var a := Translate(v, t, va, code); (a.pa, a.v) == Resolve(v, va, code)
  }

  /** No load, store or fetch of a user page can tell the cache is there. */
  ghost predicate Invisible(v: View, t: Tlb) {
    forall va: u32, code: bool, write: bool :: UserPage(v, Vpn(va)) ==> AgreesAt(v.(xlatWrite := write), t, va, code)
  }

  lemma FreshHitAgrees(v: View, t: Tlb, va: u32, code: bool)
    requires UserPage(v, Vpn(va)) && (Lookup(t, code, Vpn(va)).Some? ==> Fresh(v, code, Lookup(t, code, Vpn(va)).value))
    ensures AgreesAt(v, t, va, code)
  {
    hide WalkFb, Apr, At;
  }

  lemma StaleHitDisagrees(v: View, t: Tlb, code: bool, i: nat, e: Entry)
    requires i < 4096 && e == BankOf(t, code)[i] && Placed(v, i, e) && e.tag != 0
    requires UserPage(v, e.tag - 0x8000_0000) && !Fresh(v, code, e)
    requires v.cfg.procexp && !v.fault.pending
    ensures exists va: u32, write: bool :: UserPage(v, Vpn(va)) && !AgreesAt(v.(xlatWrite := write), t, va, code)
  {
    hide WalkFb, Apr;
    var vpn: VPN := e.tag - 0x8000_0000;
    var va: u32 := FrameOf(vpn);
    assert Vpn(va) == vpn && At(e.page, va) == e.page;
    var now := Current(v, code, vpn);
    var write := now.Some? && now.value.base == e.page;
    assert Lookup(t, code, vpn) == Some(e);
    var v1 := v.(xlatWrite := write);
    assert Apr(v1, code) == Apr(v, code) &&
      WalkFb(v1, Apr(v1, code), vpn, code) == now by { SameWalk(v, v1, code, vpn); }
    if now.Some? { assert At(now.value.base, va) == now.value.base; }
    assert !AgreesAt(v1, t, va, code);
  }

  lemma SameWalk(v: View, v': View, code: bool, vpn: VPN)
    requires SameTables(v, v')
    ensures Apr(v', code) == Apr(v, code) && WalkFb(v', Apr(v', code), vpn, code) == WalkFb(v, Apr(v, code), vpn, code)
  {
    hide Walk, DevLookup, R32;
  }

  lemma InvisibleExactlyWhenFresh(v: View, t: Tlb)
    requires WellPlaced(v, t) && v.cfg.translateOn && v.cfg.procexp && !v.fault.pending
    ensures Invisible(v, t) <==> UserFresh(v, t)
  {
    hide Translate, Resolve, WalkFb, Apr;
    if UserFresh(v, t) {
      forall va: u32, code: bool, write: bool | UserPage(v, Vpn(va))
        ensures AgreesAt(v.(xlatWrite := write), t, va, code) {
        var v1 := v.(xlatWrite := write);
        var e := BankOf(t, code)[Vpn(va) % 4096];
        SameWalk(v, v1, code, Vpn(va));
        FreshHitAgrees(v1, t, va, code);
      }
    } else {
      var code: bool, i: nat :| i < 4096 && var e := BankOf(t, code)[i];
        0x8000_0000 <= e.tag < 0x8010_0000 && UserPage(v, e.tag - 0x8000_0000) && !Fresh(v, code, e);
      assert Placed(v, i, BankOf(t, code)[i]);
      StaleHitDisagrees(v, t, code, i, BankOf(t, code)[i]);
    }
  }
}
