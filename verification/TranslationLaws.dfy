/** Address translation in the terms of the hardware: masks, shifts and register
    addresses, against the page arithmetic of `Mmu`; what a store to the
    translation unit's registers does to the cache; and write protection as the
    load and store instructions meet it. */
module TranslationLaws {
  import opened Words
  import opened Memory
  import opened Mmu
  import opened TlbTransparency
  import opened Cpu
  import T = TlbRuns

  // --- bits ----------------------------------------------------------------------

  lemma LowBits(x: u32)
    ensures And(x, 1) == x % 2 && And(x, 0x3FF) == x % 1024 && And(x, 0xFFF) == x % 4096
    ensures And(x, 0x3FFF_FFFF) == x % 0x4000_0000
  {
    hide And;
    assert Pow2(1) == 2 && Pow2(10) == 1024;
    Pow2Add(10, 2);
    Pow2Add(10, 10);
    Pow2Add(20, 10);
    assert Pow2(2) == 4;
    AndMask(x, 1);
    AndMask(x, 10);
    AndMask(x, 12);
    AndMask(x, 30);
  }

  lemma PageBits(x: u32)
    ensures And(x, 0xFFFF_F000) == PageBase(x)
  {
    hide And;
    assert Pow2(10) == 1024 && Pow2(2) == 4;
    Pow2Add(10, 2);
    AndHigh(x, 12);
    AndNot32(x, 0xFFF);
  }

  lemma OneBit(x: u32)
    ensures And(x, 2) != 0 <==> x / 2 % 2 == 1
    ensures And(x, 4) != 0 <==> x / 4 % 2 == 1
    ensures And(x, 0x20) != 0 <==> x / 0x20 % 2 == 1
    ensures And(x, 0x40) != 0 <==> x / 0x40 % 2 == 1
  {
    hide And;
    assert Pow2(1) == 2 && Pow2(2) == 4 && Pow2(5) == 0x20 && Pow2(6) == 0x40;
    AndBit(x, 1);
    AndBit(x, 2);
    AndBit(x, 5);
    AndBit(x, 6);
  }

  lemma TopBit(x: u32)
    ensures And(x, 0x8000_0000) != 0 <==> x >= 0x8000_0000
  {
    hide And;
    assert Pow2(31) == 0x8000_0000 by { Pow32(); Pow2Add(31, 1); assert Pow2(1) == 2; }
    AndBit(x, 31);
  }

  lemma Joined(frame: Frame, va: u32)
    ensures Or(And(va, 0xFFF), frame) == At(frame, va)
  {
    hide And, Or;
    LowBits(va);
    assert Pow2(10) == 1024 && Pow2(2) == 4;
    Pow2Add(10, 2);
    OrDisjoint(va % 4096, frame / 4096, 12);
  }

  // --- the walk, by the manual ---------------------------------------------------------

  function Rd32(v: View, a: u32): u32 { R32(v.cfg.fold, v.mem, a) }

  /** A table word; where the kernel's own is not valid, the one at the biased address
      if that is. */
  function TableWord(v: View, a: u32, biased: bool): u32 {
    var w := Rd32(v, a);
    var alt := Rd32(v, Wrap(And(a, 0x3FFF_FFFF) + v.cfg.ktabBias));
    if And(w, 1) == 0 && biased && And(alt, 1) != 0 then alt else w
  }

  /** Area pointer, segment descriptor, page descriptor. */
  function Descriptor(v: View, apr: u32, va: u32): Option<u32> {
    var biased := v.cfg.ktabBias != 0 && va < 0xC000_0000;
    if And32(apr, 0xFFFF_F000) == 0 then None else
    var sd := TableWord(v, Wrap(And32(apr, 0xFFFF_F000) + And32(va / 0x40_0000, 0x3FF) * 4), biased);
    if And(sd, 1) == 0 then None else
    var pd := TableWord(v, Wrap(And32(sd, 0xFFFF_F000) + And32(va / 0x1000, 0x3FF) * 4), biased);
    if And(pd, 1) == 0 then None else Some(pd)
  }

  function Physical(pd: u32, va: u32): u32 { Or32(And32(va, 0xFFF), And32(pd, 0xFFFF_F000)) }

  lemma TableWordIs(v: View, a: u32, biased: bool)
    ensures TableWord(v, a, biased) == TabR32(v.cfg, v.mem, a, biased)
  {
    hide R32, And;
    LowBits(a);
    LowBits(Rd32(v, a));
    LowBits(Rd32(v, BiasedAt(v.cfg, a)));
  }

  lemma TableIndex(va: u32)
    ensures va / 0x40_0000 % 1024 == Vpn(va) / 1024 && va / 0x1000 % 1024 == Vpn(va) % 1024
  {
    var q, r := va / 4096, va % 4096;
    DivModUnique(va, 0x40_0000, q / 1024, q % 1024 * 4096 + r);
    DivModUnique(q / 1024, 1024, 0, q / 1024);
  }

  lemma DescriptorIsWalk(v: View, apr: u32, va: u32)
    ensures Descriptor(v, apr, va) == Walk(v.cfg, v.mem, apr, Vpn(va))
  {
    hide R32, And, TableWord, TabR32, PageBase;
    PageBits(apr);
    TableIndex(va);
    LowBits(va / 0x40_0000);
    LowBits(va / 0x1000);
    var biased := v.cfg.ktabBias != 0 && va < 0xC000_0000;
    var s := Slot(PageBase(apr), Vpn(va) / 1024);
    TableWordIs(v, s, biased);
    var sd := TableWord(v, s, biased);
    LowBits(sd);
    PageBits(sd);
    var p := Slot(PageBase(sd), Vpn(va) % 1024);
    TableWordIs(v, p, biased);
    LowBits(TableWord(v, p, biased));
  }

  lemma PhysicalIs(pd: u32, va: u32)
    ensures Physical(pd, va) == At(PageBase(pd), va)
  {
    hide And, Or;
    PageBits(pd);
    Joined(PageBase(pd), va);
  }

  // --- translation, by the manual ------------------------------------------------------

  function AreaPointer(v: View, code: bool, supervisor: bool): u32 {
    Rd32(v, (if code then 0xFFF7_F000 else 0xFFF7_E000) + (if supervisor then 0x200 else 0x204))
  }

  function SupervisorPage(v: View, va: u32, code: bool, fallback: u32): u32 {
    var apr := AreaPointer(v, code, true);
    if And(apr, 1) == 0 then fallback else
    match Descriptor(v, apr, va) case Some(pd) => Physical(pd, va) case None => fallback
  }

  function KernelAddress(v: View, va: u32, code: bool): u32
    requires va >= 0xC000_0000
  {
    var dp := DevLookup(v.devmap, Vpn(va));
    if dp != 0 then Or32(And32(va, 0xFFF), dp)
    else if v.cfg.kdataOff != 0 then
      SupervisorPage(v, va, code, if va >= v.cfg.kdataVa then Wrap(va - v.cfg.kdataOff) else va - 0xC000_0000)
    else va - 0xC000_0000
  }

  /** The scratch base is read from the kernel once it has set it. */
  function Latched(v: View): View {
    if v.scratch != 0 || v.cfg.kdataOff == 0 then v else
    var w := Rd32(v, KernelAddress(v, 0xC001_4058, false));
    if w >= 0xE000_0000 then v.(scratch := And32(w, 0xFFFF_F000)) else v
  }

  function HighAddress(v: View, va: u32, code: bool): (u32, View) {
    if v.cfg.procexp && v.cfg.kdataOff != 0 && 0xFBFF_C000 <= va < 0xFC00_0000 then (SupervisorPage(v, va, code, va), v)
    else
      var v1 := Latched(v);
      if v1.scratch != 0 && v1.scratch <= va < Wrap(v1.scratch + 0x2000) then (SupervisorPage(v1, va, code, va), v1)
      else (va, v1)
  }

  /** A page somebody maps: write protection is bit 2 of its descriptor. */
  function MappedBy(v: View, pd: u32, va: u32): (u32, View) {
    if And(pd, 4) != 0 && v.cfg.procexp && v.xlatWrite && !v.fault.pending then
      (0, v.(fault := Fault(true, va, false, true, 4, v.pc)))
    else (Physical(pd, va), v)
  }

  function NobodyMaps(v: View, va: u32, code: bool): (u32, View) {
    if v.cfg.procexp && !v.fault.pending then (0, v.(fault := Fault(true, va, code, false, 4, v.pc)))
    else
      (if v.cfg.realmm then v.cfg.fold(va) else va, v.(misses := v.misses + 1, missVa := va, missPc := v.pc))
  }

  function UserAddress(v: View, va: u32, code: bool): (u32, View) {
    var apr := AreaPointer(v, code, And(v.psr, 0x8000_0000) != 0);
    if And(apr, 1) == 0 then (va, v) else
    match Descriptor(v, apr, va)
    case Some(pd) => MappedBy(v, pd, va)
    case None =>
      if !v.cfg.realmm then NobodyMaps(v, va, code)
      else if DevLookup(v.devmap, Vpn(va)) != 0 then (Or32(And32(va, 0xFFF), DevLookup(v.devmap, Vpn(va))), v)
      else
        match Descriptor(v, if code then 0xE079_0001 else 0x803F_0001, va)
        case Some(pd) => MappedBy(v, pd, va)
        case None => NobodyMaps(v, va, code)
  }

  function Manual(v: View, va: u32, code: bool): (u32, View) {
    if !v.cfg.translateOn then (va, v)
    else if v.cfg.realmm && va >= 0xE000_0000 then HighAddress(v, va, code)
    else if v.cfg.realmm && va >= 0xC000_0000 then (KernelAddress(v, va, code), v)
    else UserAddress(v, va, code)
  }

  lemma SupervisorIs(v: View, va: u32, code: bool, fallback: u32)
    ensures SupervisorPage(v, va, code, fallback) == ResolveTable(v, va, code, fallback)
  {
    hide R32, And, Descriptor, Walk, Physical, At, PageBase;
    var apr := AreaPointer(v, code, true);
    LowBits(apr);
    DescriptorIsWalk(v, apr, va);
    match Descriptor(v, apr, va) {
      case None =>
      case Some(pd) => PhysicalIs(pd, va);
    }
  }

  lemma KernelIs(v: View, va: u32, code: bool)
    requires 0xC000_0000 <= va < 0xE000_0000
    ensures KernelAddress(v, va, code) == ResolveKernel(v, va, code)
  {
    hide And, Or, DevLookup, SupervisorPage, ResolveTable, At;
    var dp := DevLookup(v.devmap, Vpn(va));
    Joined(dp, va);
    LowBits(va);
    if dp == 0 && v.cfg.kdataOff != 0 { SupervisorIs(v, va, code, Linear(v.cfg, va)); }
  }

  lemma LatchedIs(v: View)
    ensures Latched(v) == ResolveScratch(v)
  {
    hide R32, And, KernelAddress, ResolveKernel, PageBase;
    if v.scratch == 0 && v.cfg.kdataOff != 0 {
      KernelIs(v, 0xC001_4058, false);
      PageBits(Rd32(v, KernelAddress(v, 0xC001_4058, false)));
    }
  }

  lemma HighIs(v: View, va: u32, code: bool)
    requires va >= 0xE000_0000 && v.scratch % 4096 == 0
    ensures HighAddress(v, va, code) == ResolveHigh(v, va, code)
  {
    hide SupervisorPage, ResolveTable, Latched, ResolveScratch;
    LatchedIs(v);
    LatchedAligned(v);
    var v1 := Latched(v);
    SupervisorIs(v, va, code, va);
    SupervisorIs(v1, va, code, va);
    WindowPages(v1.scratch, va);
    UareaPages(va);
  }

  lemma LatchedAligned(v: View)
    requires v.scratch % 4096 == 0
    ensures ResolveScratch(v).scratch % 4096 == 0 && ResolveScratch(v).cfg == v.cfg
  {
    hide R32, ResolveKernel;
  }

  lemma WindowPages(sb: u32, va: u32)
    requires sb % 4096 == 0
    ensures InScratch(sb, Vpn(va)) <==> sb != 0 && sb <= va < Wrap(sb + 0x2000)
  {
    var e := Wrap(sb + 0x2000);
    hide Wrap;
    WrapOffset(sb + 0x2000);
    DivModUnique(sb + 0x2000, 4096, sb / 4096 + 2, 0);
    AlignedOrder(sb, va);
    AlignedOrder(e, va);
  }

  lemma AlignedOrder(a: u32, va: u32)
    requires a % 4096 == 0
    ensures a <= va <==> a / 4096 <= va / 4096
    ensures va < a <==> va / 4096 * 4096 < a
  {
  }

  lemma UareaPages(va: u32)
    ensures 0xFBFF_C000 <= va < 0xFC00_0000 <==> 0xFBFFC <= Vpn(va) < 0xFC000
  {
  }

  lemma UserIs(v: View, va: u32, code: bool)
    requires v.cfg.realmm ==> va < 0xC000_0000
    requires va < 0xE000_0000 || !v.cfg.realmm
    ensures UserAddress(v, va, code) == ResolveUser(v, va, code)
  {
    hide R32, And, Or, Descriptor, Walk, Physical, At, PageBase, DevLookup, WriteProtected;
    TopBit(v.psr);
    var apr := AreaPointer(v, code, And(v.psr, 0x8000_0000) != 0);
    LowBits(apr);
    DescriptorIsWalk(v, apr, va);
    var syn: u32 := if code then 0xE079_0001 else 0x803F_0001;
    DescriptorIsWalk(v, syn, va);
    var dp := DevLookup(v.devmap, Vpn(va));
    Joined(dp, va);
    LowBits(va);
    match Descriptor(v, apr, va) {
      case Some(pd) => MappedIs(pd, va);
      case None => if Descriptor(v, syn, va).Some? { MappedIs(Descriptor(v, syn, va).value, va); }
    }
  }

  lemma MappedIs(pd: u32, va: u32)
    ensures Physical(pd, va) == At(PageBase(pd), va) && (And(pd, 4) != 0 <==> WriteProtected(pd))
  {
    hide And, Physical, At, PageBase;
    PhysicalIs(pd, va);
    OneBit(pd);
  }

  /** Walking translation is the manual's, for every state, address and side. */
  lemma TranslationByManual(v: View, va: u32, code: bool)
    requires v.scratch % 4096 == 0
    ensures Resolve(v, va, code) == Manual(v, va, code)
  {
    hide UserAddress, ResolveUser, KernelAddress, ResolveKernel, HighAddress, ResolveHigh;
    if v.cfg.translateOn {
      if v.cfg.realmm && va >= 0xE000_0000 { HighIs(v, va, code); }
      else if v.cfg.realmm && va >= 0xC000_0000 { KernelIs(v, va, code); }
      else { UserIs(v, va, code); }
    }
  }

  /** The device list answers with the first entry for the page. */
  lemma {:induction false} FirstMapping(d: seq<DevPage>, vpn: VPN, i: nat)
    requires i < |d| && d[i].va == 4096 * vpn && forall j :: 0 <= j < i ==> d[j].va != 4096 * vpn
    ensures DevLookup(d, vpn) == d[i].pa
    decreases |d|
  {
    if i == 0 {
    } else {
      FirstMapping(d[1..], vpn, i - 1);
    }
  }

  lemma {:induction false} NoMapping(d: seq<DevPage>, vpn: VPN)
    requires forall j :: 0 <= j < |d| ==> d[j].va != 4096 * vpn
    ensures DevLookup(d, vpn) == 0
    decreases |d|
  {
    if d == [] {
    } else {
      NoMapping(d[1..], vpn);
    }
  }

  // --- the unit's registers and the cache ------------------------------------------------

  /** After a store to either area pointer of either side nothing of the cache is left:
      every access is the walk's in the new state. */
  lemma PointerStoreSettles(v: View, t: Tlb, b: u32, o: u32, val: u32, va: u32, code: bool, write: bool)
    requires (b == 0xFFF7_E000 || b == 0xFFF7_F000) && (o == 0x200 || o == 0x204)
    ensures var a := T.Step(v, t, T.Store(b + o, val)); var w := a.v.(xlatWrite := write);
      var x := Translate(w, a.t, va, code); (x.pa, x.v) == Resolve(w, va, code)
  {
    hide Translate, Resolve, StoreWord, EmptyTlb;
    EmptyWalks(T.Step(v, t, T.Store(b + o, val)).v.(xlatWrite := write), va, code);
  }

  /** So it is after any command but the two probes. */
  lemma CommandSettles(v: View, t: Tlb, b: u32, cmd: u32, va: u32, code: bool, write: bool)
    requires (b == 0xFFF7_E000 || b == 0xFFF7_F000) && cmd != 0x20 && cmd != 0x24
    ensures var a := T.Step(v, t, T.Store(b + 4, cmd)); var w := a.v.(xlatWrite := write);
      var x := Translate(w, a.t, va, code); (x.pa, x.v) == Resolve(w, va, code)
  {
    hide Translate, Resolve, StoreWord, EmptyTlb;
    EmptyWalks(T.Step(v, t, T.Store(b + 4, cmd)).v.(xlatWrite := write), va, code);
  }

  lemma EmptyWalks(v: View, va: u32, code: bool)
    ensures var x := Translate(v, EmptyTlb(), va, code); (x.pa, x.v) == Resolve(v, va, code)
  {
    hide Coherent, Translate, Resolve;
    T.EmptyCoherent(v, iset{});
    TranslateTransparent(v, EmptyTlb(), va, code, iset{});
  }

  /** Every other store, a probe among them, leaves the cache as it was. */
  lemma OtherStoresKeep(v: View, t: Tlb, a: u32, val: u32)
    requires a !in {0xFFF7_E200, 0xFFF7_E204, 0xFFF7_F200, 0xFFF7_F204}
    requires a == 0xFFF7_E004 || a == 0xFFF7_F004 ==> val == 0x20 || val == 0x24
    ensures T.Step(v, t, T.Store(a, val)).t == t
  {
    hide StoreWord;
  }

  /** Any store but a probe command is the word in memory and nothing else. */
  lemma OtherStoresStore(v: View, a: u32, val: u32)
    requires !(a in {0xFFF7_E004, 0xFFF7_F004} && val in {0x20, 0x24})
    ensures StoreWord(v, a, val) == v.(mem := W32(v.cfg.fold, v.mem, a, val))
  {
    hide W32, Probe;
  }

  /** Seen from the processor: the same six stores, and no other, empty its cache. */
  lemma BusStoreEmpties(m: Machine, a: u32, val: u32)
    requires m.sysmode
    ensures var hit := a in {0xFFF7_E200, 0xFFF7_E204, 0xFFF7_F200, 0xFFF7_F204} ||
        (a in {0xFFF7_E004, 0xFFF7_F004} && val != 0x20 && val != 0x24);
      DevWrite32(m, a, val).tlb == if hit then EmptyTlb() else m.tlb
  {
    hide StoreWord, TcsPoke, EmptyTlb, ClockWritten;
  }

  /** Words of one page do not overlap, wherever the page is. */
  lemma PageWordsApart(f: Fold, m: Store, x: u32, y: u32, val: u32)
    requires PageFold(f) && x % 4 == 0 && y % 4 == 0 && x / 4096 == y / 4096 && x != y
    ensures R32(f, W32(f, m, x, val), y) == R32(f, m, y)
  {
    hide R32, W32, Touches, PageFold;
    PageTouches(f, x, y);
    PageTouches(f, y, x);
    forall c | Touches(f, y, c) ensures Rd(W32(f, m, x, val), c) == Rd(m, c) {
      WordFrame(f, m, x, val, c);
    }
    WordReadFrame(f, W32(f, m, x, val), m, y);
  }

  lemma PageTouches(f: Fold, a: u32, b: u32)
    requires PageFold(f) && a % 4 == 0 && a / 4096 == b / 4096
    ensures f(a) - a == f(b) - b
    ensures forall c :: Touches(f, a, c) <==> f(a) <= c < f(a) + 4
  {
    hide PageFold;
    LanesInPage(f, a, 1);
    LanesInPage(f, a, 2);
    LanesInPage(f, a, 3);
    FoldMoves(f, a, b);
  }

  lemma FoldMoves(f: Fold, a: u32, b: u32)
    requires PageFold(f) && a / 4096 == b / 4096
    ensures f(a) - a == f(b) - b && f(a) % 4096 == a % 4096
  {
  }

  lemma {:induction false} AndSplit(a: nat, b: nat, k: nat)
    ensures And(a, b) == And(a % Pow2(k), b % Pow2(k)) + Pow2(k) * And(a / Pow2(k), b / Pow2(k))
    decreases k
  {
    if k == 0 {
      assert And(0, 0) == 0;
    } else {
      hide And;
      var p: int := Pow2(k - 1);
      AndStep(a, b);
      AndSplit(a / 2, b / 2, k - 1);
      AndStep(a % Pow2(k), b % Pow2(k));
      HalfMod(a, k);
      HalfMod(b, k);
      Halves(a, p);
      Halves(b, p);
      Doubles(p, And(a / Pow2(k), b / Pow2(k)));
    }
  }

  lemma Halves(a: nat, p: nat)
    requires p > 0
    ensures a / 2 / p == a / (2 * p)
  {
    var q, r := a / 2 / p, a / 2 % p;
    assert a == 2 * (p * q + r) + a % 2;
    assert 2 * (p * q) == (2 * p) * q;
    DivModUnique(a, 2 * p, q, 2 * r + a % 2);
  }

  lemma Doubles(p: int, x: int)
    ensures 2 * (p * x) == 2 * p * x
  {
  }

  /** Without bits 28 to 23. */
  lemma NodeBits(x: u32)
    ensures And(x, 0xE07F_FFFF) == NodeZero(x)
  {
    hide And;
    assert Pow2(3) == 8 && Pow2(6) == 64 && Pow2(10) == 1024;
    Pow2Add(10, 10);
    Pow2Add(20, 3);
    AndSplit(x, 0xE07F_FFFF, 23);
    AndMask(x % 0x80_0000, 23);
    var y := x / 0x80_0000;
    AndSplit(y, 0x1C0, 6);
    AndZero(y % 64);
    AndMask(y / 64, 3);
    DivModUnique(y / 64, 8, 0, y / 64);
    assert 0xE07F_FFFF % 0x80_0000 == 0x7F_FFFF && 0xE07F_FFFF / 0x80_0000 == 0x1C0;
    assert And(x % 0x80_0000, 0x7F_FFFF) == x % 0x80_0000;
  }

  /** Where an address leads by a table, the device list, the synthetic table and, in
      device space, nowhere else but itself. */
  function Found(v: View, apr: u32, va: u32, code: bool): Option<u32> {
    match Descriptor(v, apr, va)
    case Some(pd) => Some(Physical(pd, va))
    case None =>
      if !v.cfg.realmm then None
      else if DevLookup(v.devmap, Vpn(va)) != 0 then Some(Or32(And32(va, 0xFFF), DevLookup(v.devmap, Vpn(va))))
      else
        match Descriptor(v, if code then 0xE079_0001 else 0x803F_0001, va)
        case Some(pd) => Some(Physical(pd, va))
        case None => if va >= 0xE000_0000 then Some(va) else None
  }

  lemma FoundIs(v: View, apr: u32, va: u32, code: bool)
    ensures Found(v, apr, va, code) ==
      match WalkFb(v, apr, Vpn(va), code) case Some(p) => Some(At(p.base, va)) case None => None
  {
    hide R32, And, Or, Descriptor, Walk, Physical, PageBase, DevLookup, WriteProtected;
    DescriptorIsWalk(v, apr, va);
    var syn: u32 := if code then 0xE079_0001 else 0x803F_0001;
    DescriptorIsWalk(v, syn, va);
    Joined(DevLookup(v.devmap, Vpn(va)), va);
    LowBits(va);
    match Descriptor(v, apr, va) {
      case Some(pd) => PhysicalIs(pd, va);
      case None => if Descriptor(v, syn, va).Some? { PhysicalIs(Descriptor(v, syn, va).value, va); }
    }
  }

  /** What a probe reports: valid and the address, for kernel space without its node
      bits, or not valid and where it missed. */
  predicate Reported(z: View, b: u32, va: u32, found: Option<u32>)
    requires b < 0xFFFF_0000
  {
    match found
    case None => Rd32(z, b + 8) == 0 && Rd32(z, b + 0x10C) == va
    case Some(pa) =>
      Rd32(z, b + 8) == 1 && Rd32(z, b + 0x0C) == if 0xC000_0000 <= va < 0xE000_0000 then And(pa, 0xE07F_FFFF) else pa
  }

  /** A probe walks the table its command names, 0x24 the supervisor's and 0x20 the
      user's, for the address in the unit's register. */
  lemma ProbeReports(v: View, b: u32, cmd: u32)
    requires (b == 0xFFF7_E000 || b == 0xFFF7_F000) && (cmd == 0x20 || cmd == 0x24) && PageFold(v.cfg.fold)
    ensures var w := v.(mem := W32(v.cfg.fold, v.mem, b + 4, cmd));
      var va := Rd32(w, b + 0x0C);
      Reported(StoreWord(v, b + 4, cmd), b, va,
        Found(w, Rd32(w, b + if cmd == 0x24 then 0x200 else 0x204), va, b == 0xFFF7_F000))
  {
    hide R32, W32, WalkFb, NodeZero, At, And, PageFold, Found;
    var f := v.cfg.fold;
    var w := v.(mem := W32(f, v.mem, b + 4, cmd));
    var va := Rd32(w, b + 0x0C);
    var apr := Rd32(w, b + if cmd == 0x24 then 0x200 else 0x204);
    FoundIs(w, apr, va, b == 0xFFF7_F000);
    match WalkFb(w, apr, Vpn(va), b == 0xFFF7_F000) {
      case Some(p) =>
        NodeBits(At(p.base, va));
        var pa := if 0xC000_0000 <= va < 0xE000_0000 then NodeZero(At(p.base, va)) else At(p.base, va);
        var m1 := W32(f, w.mem, b + 8, 1);
        WordRoundTrip(f, w.mem, b + 8, 1);
        WordRoundTrip(f, m1, b + 0x0C, pa);
        PageWordsApart(f, m1, b + 0x0C, b + 8, pa);
      case None =>
        var m1 := W32(f, w.mem, b + 8, 0);
        WordRoundTrip(f, w.mem, b + 8, 0);
        WordRoundTrip(f, m1, b + 0x10C, va);
        PageWordsApart(f, m1, b + 0x10C, b + 8, va);
    }
  }

  // --- write protection, as instructions meet it --------------------------------------

  /** A process's page, mapped by pd, that the cache holds as it is or not at all. */
  ghost predicate ProcessPage(m: Machine, ea: u32, pd: u32) {
    var v := Sync(m);
    && v.cfg.translateOn && v.cfg.procexp && !v.fault.pending && (v.cfg.realmm ==> ea < 0xC000_0000)
    && And(AreaPointer(v, false, And(v.psr, 0x8000_0000) != 0), 1) != 0
    && Descriptor(v, AreaPointer(v, false, And(v.psr, 0x8000_0000) != 0), ea) == Some(pd)
    && (Lookup(m.tlb, false, Vpn(ea)) == None || Lookup(m.tlb, false, Vpn(ea)) == Some(Holding(ea, pd)))
  }

  /** The cache's entry for it. */
  function Holding(ea: u32, pd: u32): Entry { Entry(Vpn(ea) + 0x8000_0000, PageBase(pd), And(pd, 4) != 0) }

  /** Bytes an access moves. */
  function Width(sub: Sub6): nat {
    if sub in {0x00, 0x03, 0x07, 0x0B} then 1 else if sub in {0x02, 0x06, 0x0A} then 2
    else if sub in {0x04, 0x08} then 8 else 4
  }

  lemma PageAnswers(m: Machine, ea: u32, pd: u32, write: bool)
    requires ProcessPage(m, ea, pd)
    ensures var v := Sync(m).(xlatWrite := write);
      var a := Translate(v, m.tlb, ea, false);
      Lookup(a.t, false, Vpn(ea)) == Some(Holding(ea, pd)) &&
      if And(pd, 4) != 0 && write then a.v == v.(fault := Fault(true, ea, false, true, 4, m.core.pc))
      else a.v == v && a.pa == Physical(pd, ea)
  {
    hide R32, And, Or, Descriptor, Walk, Physical, At, PageBase, DevLookup, WriteProtected, Lookup, Fill;
    var v := Sync(m);
    TopBit(v.psr);
    var apr := AreaPointer(v, false, And(v.psr, 0x8000_0000) != 0);
    LowBits(apr);
    DescriptorIsWalk(v, apr, ea);
    MappedIs(pd, ea);
    SameWalk(v, v.(xlatWrite := write), false, Vpn(ea));
    FilledHolds(m.tlb, ea, pd);
  }

  lemma FilledHolds(t: Tlb, ea: u32, pd: u32)
    ensures Lookup(Fill(t, false, Vpn(ea), PageBase(pd), And(pd, 4) != 0), false, Vpn(ea)) == Some(Holding(ea, pd))
  {
    hide And;
  }

  /** Storing into a write-protected page, whether the cache has it or not: every one of
      the storing and exchanging operations raises a write fault of its own width at
      its own address and changes no register and no byte; and the next will too. */
  lemma ProtectedStoreFaults(m: Machine, sub: Sub6, d: Reg5, ea: u32, pd: u32)
    requires ProcessPage(m, ea, pd) && And(pd, 4) != 0 && sub in {0x00, 0x01, 0x08, 0x09, 0x0A, 0x0B}
    ensures var e := MemOp(m, sub, d, ea);
      && e.Ok? && e.m.mmu.fault == Fault(true, ea, false, true, Width(sub), m.core.pc)
      && e.m.core == m.core && e.m.mmu.mem == m.mmu.mem && e.m.clk == m.clk
      && Lookup(e.m.tlb, false, Vpn(ea)) == Some(Holding(ea, pd))
  {
    hide Translate, And, Lookup, Descriptor, PageBase, Transfer;
    PageAnswers(m, ea, pd, true);
  }

  /** A load from it, and any access to an unprotected page, goes through to the frame
      its descriptor names. */
  lemma OtherAccessReaches(m: Machine, sub: Sub6, d: Reg5, ea: u32, pd: u32)
    requires ProcessPage(m, ea, pd) && sub < 0x0C && !PairOverrun(sub, d)
    requires And(pd, 4) == 0 || sub in {0x02, 0x03, 0x04, 0x05, 0x06, 0x07}
    ensures var t := Translate(Sync(m).(xlatWrite := Writes(sub)), m.tlb, ea, false).t;
      MemOp(m, sub, d, ea) ==
        Ok(Transfer(m.(mmu := Sync(m).(xlatWrite := false), tlb := t), sub, d, Physical(pd, ea)), Next) &&
      Lookup(t, false, Vpn(ea)) == Some(Holding(ea, pd))
  {
    hide Translate, And, Lookup, Descriptor, PageBase, Transfer, Physical;
    PageAnswers(m, ea, pd, Writes(sub));
  }
}
