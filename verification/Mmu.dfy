/** MC88200 address translation: the two-level table walk, the fall-backs around
    it, and the direct-mapped, untagged translation cache in front of it.

    Addresses split into a page number va / 4096 and an offset va % 4096; the
    segment index (va >> 22) & 0x3FF is vpn / 1024 and the page index
    (va >> 12) & 0x3FF is vpn % 1024. */
module Mmu {
  import opened Words
  import opened Memory

  const KOFF: u32 := 0xC000_0000
  const DEVICES: u32 := 0xE000_0000
  const CODE_CMMU: u32 := 0xFFF7_F000
  const DATA_CMMU: u32 := 0xFFF7_E000
  const SCR: u32 := 0x004
  const SSR: u32 := 0x008
  const SAR: u32 := 0x00C
  const PFSR: u32 := 0x108
  const PFAR: u32 := 0x10C
  const SAPR: u32 := 0x200
  const UAPR: u32 := 0x204
  const CODE_SEGTAB: u32 := 0xE079_0000
  const DATA_SEGTAB: u32 := 0x803F_0000
  const SCRATCH_PTR: u32 := 0xC001_4058

  /** A mapping the kernel's own mapper asked for: page va goes to page pa. */
  datatype DevPage = DevPage(va: Frame, pa: Frame)

  datatype Config = Config(realmm: bool, fold: Fold, translateOn: bool, procexp: bool,
                           kdataVa: u32, kdataOff: u32, ktabBias: u32)

  /** The pending page fault the running instruction has raised. */
  datatype Fault = Fault(pending: bool, va: u32, code: bool, write: bool, width: int, pc: u32)

  /** Everything translation reads or writes except the cache itself.
      `psr` and `pc` are the processor's. */
  datatype View = View(cfg: Config, mem: Store, devmap: seq<DevPage>, scratch: u32, psr: u32, pc: u32,
                       xlatWrite: bool, fault: Fault, misses: nat, missVa: u32, missPc: u32)

  /** A cache entry.  The source packs `wp` into bit 0 of the page address. */
  datatype Entry = Entry(tag: u32, page: Frame, wp: bool)
  const NO_ENTRY := Entry(0, 0, false)
  type Bank = s: seq<Entry> | |s| == 4096 witness seq(4096, _ => Entry(0, 0, false))
  datatype Tlb = Tlb(data: Bank, code: Bank)

  function EmptyTlb(): Tlb { Tlb(seq(4096, _ => NO_ENTRY), seq(4096, _ => NO_ENTRY)) }

  function BankOf(t: Tlb, code: bool): Bank { if code then t.code else t.data }

  type VPN = n: int | 0 <= n < 0x10_0000

  function Vpn(va: u32): VPN { va / 4096 }

  function FrameOf(vpn: VPN): Frame { vpn * 4096 }

  function Lookup(t: Tlb, code: bool, vpn: VPN): Option<Entry> {
    var e := BankOf(t, code)[vpn % 4096];
    if e.tag == vpn + 0x8000_0000 then Some(e) else None
  }

  function Fill(t: Tlb, code: bool, vpn: VPN, page: Frame, wp: bool): Tlb
  {
    var e := Entry(vpn + 0x8000_0000, page, wp);
    if code then t.(code := t.code[vpn % 4096 := e]) else t.(data := t.data[vpn % 4096 := e])
  }

  // --- the walk ------------------------------------------------------------

  function TabR32(c: Config, m: Store, pa: u32, biased: bool): u32 {
    var w := R32(c.fold, m, pa);
    var alt := R32(c.fold, m, BiasedAt(c, pa));
    if w % 2 == 0 && biased && alt % 2 == 1 then alt else w
  }

  function BiasedAt(c: Config, pa: u32): u32 { Wrap(pa % 0x4000_0000 + c.ktabBias) }

  function Slot(table: Frame, index: nat): u32
    requires index < 1024
  {
    table + index * 4
  }

  predicate Biased(c: Config, vpn: VPN) { c.ktabBias != 0 && vpn < 0xC_0000 }

  /** The valid page descriptor for a page, if the tables hold one. */
  function Walk(c: Config, m: Store, apr: u32, vpn: VPN): Option<u32>
  {
    var segtab := PageBase(apr);
    if segtab == 0 then None else
    var sd := TabR32(c, m, Slot(segtab, vpn / 1024), Biased(c, vpn));
    if sd % 2 == 0 then None else
    var pd := TabR32(c, m, Slot(PageBase(sd), vpn % 1024), Biased(c, vpn));
    if pd % 2 == 0 then None else Some(pd)
  }

  function DevLookup(d: seq<DevPage>, vpn: VPN): Frame {
    if d == [] then 0 else if d[0].va == FrameOf(vpn) then d[0].pa else DevLookup(d[1..], vpn)
  }

  predicate WriteProtected(pd: u32) { pd / 4 % 2 == 1 }

  datatype Page = Page(base: Frame, wp: bool)

  /** The active table, then mapped devices, then the synthetic table, then
      identity for device space. */
  function WalkFb(v: View, apr: u32, vpn: VPN, code: bool): Option<Page>
  {
    match WalkPage(v, apr, vpn)
    case Some(p) => Some(p)
    case None =>
      if !v.cfg.realmm then None
      else if DevLookup(v.devmap, vpn) != 0 then Some(Page(DevLookup(v.devmap, vpn), false))
      else
        match WalkPage(v, (if code then CODE_SEGTAB else DATA_SEGTAB) + 1, vpn)
        case Some(p) => Some(p)
        case None => if vpn >= 0xE_0000 then Some(Page(FrameOf(vpn), false)) else None
  }

  function WalkPage(v: View, apr: u32, vpn: VPN): Option<Page> {
    match Walk(v.cfg, v.mem, apr, vpn)
    case Some(pd) => Some(Page(PageBase(pd), WriteProtected(pd)))
    case None => None
  }

  function Reg(v: View, code: bool, off: u32): u32
    requires off < 0x1000
  {
    R32(v.cfg.fold, v.mem, (if code then CODE_CMMU else DATA_CMMU) + off)
  }

  function Apr(v: View, code: bool): u32 {
    Reg(v, code, if v.psr >= 0x8000_0000 then SAPR else UAPR)
  }

  /** The supervisor table's answer for a kernel page, if it has one. */
  function KernelPage(v: View, code: bool, vpn: VPN): Option<Page>
  {
    if Reg(v, code, SAPR) % 2 == 0 then None else
    match WalkPage(v, Reg(v, code, SAPR), vpn)
    case Some(p) => Some(Page(p.base, false))
    case None => None
  }

  predicate InUarea(c: Config, vpn: VPN) { c.procexp && c.kdataOff != 0 && 0xFBFFC <= vpn < 0xFC000 }

  /** The kernel's two-page physical-access window, once its base is known. */
  predicate InScratch(sb: u32, vpn: VPN) {
    sb != 0 && sb / 4096 <= vpn && vpn * 4096 < Wrap(sb + 0x2000)
  }

  // --- faults ----------------------------------------------------------------

  predicate CowFires(v: View) { v.cfg.procexp && v.xlatWrite && !v.fault.pending }

  function CowFault(v: View, va: u32): View {
    v.(fault := Fault(true, va, false, true, 4, v.pc))
  }

  /** A user page nobody maps: record a fault, or count a miss and fall through. */
  function UserMiss(v: View, va: u32, code: bool): (u32, View) {
    if v.cfg.procexp && !v.fault.pending then
      (0, v.(fault := Fault(true, va, code, false, 4, v.pc)))
    else
      (if v.cfg.realmm then v.cfg.fold(va) else va,
       v.(misses := v.misses + 1, missVa := va, missPc := v.pc))
  }

  // --- translation without the cache: the reference ------------------------

  /** A kernel address answered by the supervisor table or by `fallback`. */
  function ResolveTable(v: View, va: u32, code: bool, fallback: u32): u32 {
    match KernelPage(v, code, Vpn(va)) case Some(p) => At(p.base, va) case None => fallback
  }

  function Linear(c: Config, va: u32): u32
    requires va >= KOFF
  {
    if va >= c.kdataVa then Wrap(va - c.kdataOff) else va - KOFF
  }

  function ResolveKernel(v: View, va: u32, code: bool): u32
    requires KOFF <= va < DEVICES
  {
    var dp := DevLookup(v.devmap, Vpn(va));
    if dp != 0 then At(dp, va)
    else if v.cfg.kdataOff != 0 then ResolveTable(v, va, code, Linear(v.cfg, va))
    else va - KOFF
  }

  /** The scratch base is latched from kernel memory the first time it reads as
      a device-space address. */
  function Latch(v: View, pa: u32): View {
    var w := R32(v.cfg.fold, v.mem, pa);
    if w >= DEVICES then v.(scratch := PageBase(w)) else v
  }

  function ResolveScratch(v: View): View {
    if v.scratch == 0 && v.cfg.kdataOff != 0 then Latch(v, ResolveKernel(v, SCRATCH_PTR, false)) else v
  }

  function ResolveHigh(v: View, va: u32, code: bool): (u32, View)
    requires va >= DEVICES
  {
    if InUarea(v.cfg, Vpn(va)) then (ResolveTable(v, va, code, va), v)
    else
      var v1 := ResolveScratch(v);
      if InScratch(v1.scratch, Vpn(va)) then (ResolveTable(v1, va, code, va), v1) else (va, v1)
  }

  function ResolveUser(v: View, va: u32, code: bool): (u32, View) {
    if Apr(v, code) % 2 == 0 then (va, v)
    else
      match WalkFb(v, Apr(v, code), Vpn(va), code)
      case None => UserMiss(v, va, code)
      case Some(p) =>
        if p.wp && CowFires(v) then (0, CowFault(v, va)) else (At(p.base, va), v)
  }

  /** Translation that walks the tables on every access. */
  function Resolve(v: View, va: u32, code: bool): (u32, View) {
    if !v.cfg.translateOn then (va, v)
    else if v.cfg.realmm && va >= DEVICES then ResolveHigh(v, va, code)
    else if v.cfg.realmm && va >= KOFF then (ResolveKernel(v, va, code), v)
    else ResolveUser(v, va, code)
  }

  // --- translation through the cache -----------------------------------------

  datatype Ans = Ans(pa: u32, v: View, t: Tlb)

  function TransTable(v: View, t: Tlb, va: u32, code: bool, fallback: u32): Ans {
    match Lookup(t, code, Vpn(va))
    case Some(e) => Ans(At(e.page, if e.wp then va / 2 * 2 + 1 else va), v, t)
    case None =>
      match KernelPage(v, code, Vpn(va))
      case None => Ans(fallback, v, t)
      case Some(p) => Ans(At(p.base, va), v, Fill(t, code, Vpn(va), p.base, false))
  }

  function TransKernel(v: View, t: Tlb, va: u32, code: bool): Ans
    requires KOFF <= va < DEVICES
  {
    var dp := DevLookup(v.devmap, Vpn(va));
    if dp != 0 then Ans(At(dp, va), v, t)
    else if v.cfg.kdataOff != 0 then TransTable(v, t, va, code, Linear(v.cfg, va))
    else Ans(va - KOFF, v, t)
  }

  function TransScratch(v: View, t: Tlb): (View, Tlb) {
    if v.scratch == 0 && v.cfg.kdataOff != 0 then
      var a := TransKernel(v, t, SCRATCH_PTR, false);
      (Latch(a.v, a.pa), a.t)
    else (v, t)
  }

  function TransHigh(v: View, t: Tlb, va: u32, code: bool): Ans
    requires va >= DEVICES
  {
    if InUarea(v.cfg, Vpn(va)) then Ans(ResolveTable(v, va, code, va), v, t)
    else
      var (v1, t1) := TransScratch(v, t);
      if InScratch(v1.scratch, Vpn(va)) then TransTable(v1, t1, va, code, va) else Ans(va, v1, t1)
  }

  function TransUser(v: View, t: Tlb, va: u32, code: bool): Ans {
    if Apr(v, code) % 2 == 0 then Ans(va, v, t)
    else
      match Lookup(t, code, Vpn(va))
      case Some(e) =>
        if e.wp && CowFires(v) then Ans(0, CowFault(v, va), t) else Ans(At(e.page, va), v, t)
      case None =>
        match WalkFb(v, Apr(v, code), Vpn(va), code)
        case None => var (pa, v') := UserMiss(v, va, code); Ans(pa, v', t)
        case Some(p) =>
          var t' := Fill(t, code, Vpn(va), p.base, p.wp);
          if p.wp && CowFires(v) then Ans(0, CowFault(v, va), t') else Ans(At(p.base, va), v, t')
  }

  function Translate(v: View, t: Tlb, va: u32, code: bool): Ans {
    if !v.cfg.translateOn then Ans(va, v, t)
    else if v.cfg.realmm && va >= DEVICES then TransHigh(v, t, va, code)
    else if v.cfg.realmm && va >= KOFF then TransKernel(v, t, va, code)
    else TransUser(v, t, va, code)
  }

  // --- the translation unit's registers ---------------------------------------

  function CmmuBase(a: u32): Option<u32> {
    if CODE_CMMU <= a < CODE_CMMU + 0x1000 then Some(CODE_CMMU)
    else if DATA_CMMU <= a < DATA_CMMU + 0x1000 then Some(DATA_CMMU)
    else None
  }

  predicate IsProbe(cmd: u32) { cmd == 0x20 || cmd == 0x24 }

  /** Word stores that empty the cache: any command but a probe, and a write of
      either area pointer. */
  predicate Flushes(a: u32, val: u32) {
    match CmmuBase(a)
    case None => false
    case Some(base) => (a == base + SCR && !IsProbe(val)) || a == base + SAPR || a == base + UAPR
  }

  /** Kernel-space probe results are reported on node 0: bits 28..23 cleared. */
  function NodeZero(pa: u32): u32 { pa - pa / 0x80_0000 % 64 * 0x80_0000 }

  /** The address-probe command: status and address, or a miss and its address. */
  function Probe(v: View, base: u32, cmd: u32): View
    requires base == CODE_CMMU || base == DATA_CMMU
  {
    var f := v.cfg.fold;
    var va := R32(f, v.mem, base + SAR);
    var apr := R32(f, v.mem, base + if cmd == 0x24 then SAPR else UAPR);
    match WalkFb(v, apr, Vpn(va), base == CODE_CMMU)
    case Some(p) =>
      var pa := if KOFF <= va < DEVICES then NodeZero(At(p.base, va)) else At(p.base, va);
      v.(mem := W32(f, W32(f, v.mem, base + SSR, 1), base + SAR, pa))
    case None =>
      v.(mem := W32(f, W32(f, v.mem, base + SSR, 0), base + PFAR, va))
  }

  /** A word store as the bus sees it. */
  function StoreWord(v: View, a: u32, val: u32): View {
    var v1 := v.(mem := W32(v.cfg.fold, v.mem, a, val));
    match CmmuBase(a)
    case Some(base) => if a == base + SCR && IsProbe(val) then Probe(v1, base, val) else v1
    case None => v1
  }

  /** Remap a page already listed; list a new one while there is room. */
  function DevAdd(d: seq<DevPage>, va: Frame, pa: Frame, room: bool): seq<DevPage> {
    if d == [] then (if room then [DevPage(va, pa)] else [])
    else if d[0].va == va then [DevPage(va, pa)] + d[1..]
    else [d[0]] + DevAdd(d[1..], va, pa, room)
  }
}
