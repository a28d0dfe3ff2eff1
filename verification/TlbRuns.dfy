/** Whole runs of the translation unit: accesses, mode changes, word stores
    (page-table updates, area-pointer writes, commands and probes), byte stores
    (and so any store to memory alone), fault pick-up and device mappings, in
    any order. */
module TlbRuns {
  import opened Words
  import opened Memory
  import opened Mmu
  import opened TlbTransparency

  datatype Event =
    | Access(va: u32, code: bool, write: bool)
    | SetPsr(psr: u32)
    | SetPc(pc: u32)
    | Store(a: u32, val: u32)
    | StoreByte(a: u32, b: u8)
    | TakeFault
    | MapDevice(page: Frame, to: Frame)
    | SetBias(bias: u32)

  /** What an event other than an access does to the view, cache or no cache. */
  function Quiet(v: View, e: Event): View
    requires !e.Access?
  {
    match e
    case SetPsr(p) => v.(psr := p)
    case SetPc(p) => v.(pc := p)
    case Store(a, val) => StoreWord(v, a, val)
    case StoreByte(a, b) => v.(mem := W8(v.cfg.fold, v.mem, a, b))
    case TakeFault => v.(fault := v.fault.(pending := false))
    case MapDevice(page, to) => v.(devmap := DevAdd(v.devmap, page, to, |v.devmap| < 512))
    case SetBias(b) => v.(cfg := v.cfg.(ktabBias := b))
  }

  predicate Flush(e: Event) { e.Store? && Flushes(e.a, e.val) }

  /** One event with the cache: an address for an access, 0 otherwise. */
  function Step(v: View, t: Tlb, e: Event): Ans {
    if e.Access? then
      var a := Translate(v.(xlatWrite := e.write), t, e.va, e.code);
      a.(v := a.v.(xlatWrite := false))
    else Ans(0, Quiet(v, e), if Flush(e) then EmptyTlb() else t)
  }

  /** One event on a machine with no cache. */
  function RefStep(v: View, e: Event): (u32, View) {
    if e.Access? then
      var (pa, v') := Resolve(v.(xlatWrite := e.write), e.va, e.code);
      (pa, v'.(xlatWrite := false))
    else (0, Quiet(v, e))
  }

  function Run(v: View, t: Tlb, es: seq<Event>): (seq<u32>, View)
    decreases |es|
  {
    if es == [] then ([], v) else
    var a := Step(v, t, es[0]);
    var (out, v') := Run(a.v, a.t, es[1..]);
    ([a.pa] + out, v')
  }

  function RefRun(v: View, es: seq<Event>): (seq<u32>, View)
    decreases |es|
  {
    if es == [] then ([], v) else
    var (pa, v1) := RefStep(v, es[0]);
    var (out, v') := RefRun(v1, es[1..]);
    ([pa] + out, v')
  }

  /** A page the cache answers for in v', and answered differently in v; one that
      was not mapped in v cannot be cached. */
  predicate Changed(v: View, v': View, code: bool, vpn: VPN) {
    Consulted(v', code, vpn) &&
    !(Consulted(v, code, vpn) && (Current(v, code, vpn) == None || Current(v', code, vpn) == Current(v, code, vpn)))
  }

  ghost predicate SamePages(v: View, v': View) {
    forall code: bool, vpn: VPN :: !Changed(v, v', code, vpn)
  }

  ghost function Changes(v: View, v': View): Dirty {
    iset code: bool, vpn: VPN | Changed(v, v', code, vpn) :: (code, vpn)
  }

  /** Changed pages pile up until a flush. */
  ghost function DirtyAfter(v: View, v': View, d: Dirty, flushed: bool): Dirty {
    if flushed then iset{} else d + Changes(v, v')
  }

  /** No access relies on a page that has changed since the last flush. */
  ghost predicate Disciplined(v: View, d: Dirty, es: seq<Event>)
    decreases |es|
  {
    es == [] ||
    (var v' := RefStep(v, es[0]).1;
     if es[0].Access? then Clean(v, d, es[0].va, es[0].code) && Disciplined(v', d, es[1..])
     else Disciplined(v', DirtyAfter(v, v', d, Flush(es[0])), es[1..]))
  }

  lemma QuietKeeps(v: View, e: Event)
    requires !e.Access?
    ensures Quiet(v, e).scratch == v.scratch && Quiet(v, e).cfg.realmm == v.cfg.realmm
  {
    hide WalkFb, R32, W32, NodeZero, DevAdd;
  }

  /** Whatever changes the view, the pages it changed aside the cache stays
      coherent. */
  lemma ChangeCoherent(v: View, v': View, t: Tlb, d: Dirty)
    requires Coherent(v, t, d) && v'.scratch == v.scratch && v'.cfg.realmm == v.cfg.realmm
    ensures Coherent(v', t, d + Changes(v, v'))
  {
    hide Consulted, Current;
    forall code: bool, i: nat | i < 4096
      ensures Placed(v', i, BankOf(t, code)[i]) && FreshOr(v', code, BankOf(t, code)[i], d + Changes(v, v'))
    {
      var e := BankOf(t, code)[i];
      assert Placed(v, i, e) && FreshOr(v, code, e, d);
    }
  }

  lemma EmptyCoherent(v: View, d: Dirty)
    ensures Coherent(v, EmptyTlb(), d)
  {
    hide Consulted, Current;
  }

  /** Over every disciplined run, from any state whose cache is coherent but for
      the pages known to have changed, every address and every fault record is
      the one the machine without a cache produces. */
  lemma {:induction false} RunTransparent(v: View, t: Tlb, d: Dirty, es: seq<Event>)
    requires Coherent(v, t, d) && Disciplined(v, d, es)
    ensures Run(v, t, es) == RefRun(v, es)
    decreases |es|
  {
    hide Translate, Resolve, Coherent, Quiet, Changes;
    if es == [] {
    } else {
      var e, rest := es[0], es[1..];
      var a := Step(v, t, e);
      if e.Access? {
        var v1 := v.(xlatWrite := e.write);
        CoherentTransfers(v, v1, t, d);
        TranslateTransparent(v1, t, e.va, e.code, d);
        var b := Translate(v1, t, e.va, e.code);
        CoherentTransfers(b.v, a.v, a.t, d);
        RunTransparent(a.v, a.t, d, rest);
      } else {
        var d' := DirtyAfter(v, a.v, d, Flush(e));
        EmptyCoherent(a.v, d');
        QuietKeeps(v, e);
        ChangeCoherent(v, a.v, t, d);
        RunTransparent(a.v, a.t, d', rest);
      }
    }
  }

  /** From reset: the empty cache, nothing changed. */
  lemma RunFromReset(v: View, es: seq<Event>)
    requires Disciplined(v, iset{}, es)
    ensures Run(v, EmptyTlb(), es) == RefRun(v, es)
  {
    hide Coherent;
    EmptyCoherent(v, iset{});
    RunTransparent(v, EmptyTlb(), iset{}, es);
  }

  /** A run taken up in the middle. */
  lemma RunFrom(v: View, t: Tlb, es: seq<Event>, i: nat, out: seq<u32>)
    requires i < |es|
    ensures var a := Step(v, t, es[i]);
      out + Run(v, t, es[i..]).0 == out + [a.pa] + Run(a.v, a.t, es[i + 1..]).0 &&
      Run(v, t, es[i..]).1 == Run(a.v, a.t, es[i + 1..]).1
  {
    hide Step;
    assert es[i..][1..] == es[i + 1..];
  }

  lemma RunDone(v: View, t: Tlb, es: seq<Event>, out: seq<u32>)
    ensures out + Run(v, t, es[|es|..]).0 == out && Run(v, t, es[|es|..]).1 == v
  {
  }

  // --- events that leave every cached page alone ------------------------------

  /** Entering or leaving supervisor mode is harmless when each side's two area
      pointers name one table. */
  lemma ModeChangeIsClean(v: View, psr: u32)
    requires forall code: bool :: Reg(v, code, SAPR) == Reg(v, code, UAPR)
    ensures SamePages(v, Quiet(v, SetPsr(psr)))
  {
    hide Walk, DevLookup, R32;
    var v' := Quiet(v, SetPsr(psr));
    forall code: bool, vpn: VPN ensures !Changed(v, v', code, vpn) {
      assert Reg(v, code, SAPR) == Reg(v, code, UAPR);
    }
  }

  /** The bytes a table walk reads. */
  predicate WalkByte(c: Config, m: Store, apr: u32, vpn: VPN, b: int) {
    var s := Slot(PageBase(apr), vpn / 1024);
    var p := Slot(PageBase(TabR32(c, m, s, Biased(c, vpn))), vpn % 1024);
    Touches(c.fold, s, b) || Touches(c.fold, BiasedAt(c, s), b) ||
    Touches(c.fold, p, b) || Touches(c.fold, BiasedAt(c, p), b)
  }

  lemma TabFrame(c: Config, m: Store, m': Store, pa: u32, biased: bool)
    requires forall b :: Touches(c.fold, pa, b) || Touches(c.fold, BiasedAt(c, pa), b) ==> Rd(m, b) == Rd(m', b)
    ensures TabR32(c, m, pa, biased) == TabR32(c, m', pa, biased)
  {
    hide R32, BiasedAt, Touches;
    WordReadFrame(c.fold, m, m', pa);
    WordReadFrame(c.fold, m, m', BiasedAt(c, pa));
  }

  lemma WalkFrame(c: Config, m: Store, m': Store, apr: u32, vpn: VPN)
    requires forall b :: WalkByte(c, m, apr, vpn, b) ==> Rd(m, b) == Rd(m', b)
    ensures Walk(c, m, apr, vpn) == Walk(c, m', apr, vpn)
  {
    hide TabR32, Touches, BiasedAt, Slot, PageBase;
    var s := Slot(PageBase(apr), vpn / 1024);
    TabFrame(c, m, m', s, Biased(c, vpn));
    TabFrame(c, m, m', Slot(PageBase(TabR32(c, m, s, Biased(c, vpn))), vpn % 1024), Biased(c, vpn));
  }

  /** The bytes that decide a page on one side: that side's area pointers and
      every table word a walk through them, or through the synthetic table,
      could read. */
  predicate PageByte(v: View, code: bool, vpn: VPN, b: int) {
    var f := v.cfg.fold;
    var base := if code then CODE_CMMU else DATA_CMMU;
    Touches(f, base + SAPR, b) || Touches(f, base + UAPR, b) ||
    WalkByte(v.cfg, v.mem, Reg(v, code, SAPR), vpn, b) ||
    WalkByte(v.cfg, v.mem, Reg(v, code, UAPR), vpn, b) ||
    WalkByte(v.cfg, v.mem, (if code then CODE_SEGTAB else DATA_SEGTAB) + 1, vpn, b)
  }

  lemma PageFrame(v: View, m': Store, code: bool, vpn: VPN)
    requires forall b :: PageByte(v, code, vpn, b) ==> Rd(v.mem, b) == Rd(m', b)
    ensures var v' := v.(mem := m');
      Consulted(v', code, vpn) == Consulted(v, code, vpn) && Current(v', code, vpn) == Current(v, code, vpn)
  {
    hide Walk, DevLookup, R32, PageBase, Touches, WalkByte;
    var base := if code then CODE_CMMU else DATA_CMMU;
    WordReadFrame(v.cfg.fold, v.mem, m', base + SAPR);
    WordReadFrame(v.cfg.fold, v.mem, m', base + UAPR);
    WalkFrame(v.cfg, v.mem, m', Reg(v, code, SAPR), vpn);
    WalkFrame(v.cfg, v.mem, m', Reg(v, code, UAPR), vpn);
    WalkFrame(v.cfg, v.mem, m', (if code then CODE_SEGTAB else DATA_SEGTAB) + 1, vpn);
  }

  /** A store outside the translation unit that misses every table word and
      area pointer is clean, whatever aliases the address has. */
  lemma StoreOutsideTablesIsClean(v: View, a: u32, val: u32)
    requires CmmuBase(a).None?
    requires forall code: bool, vpn: VPN, b: int :: PageByte(v, code, vpn, b) ==> !Touches(v.cfg.fold, a, b)
    ensures SamePages(v, Quiet(v, Store(a, val)))
  {
    hide Consulted, Current, PageByte, Touches, W32;
    var m' := W32(v.cfg.fold, v.mem, a, val);
    forall code: bool, vpn: VPN
      ensures Consulted(v.(mem := m'), code, vpn) == Consulted(v, code, vpn)
      ensures Current(v.(mem := m'), code, vpn) == Current(v, code, vpn)
    {
      forall b: int | PageByte(v, code, vpn, b) ensures Rd(v.mem, b) == Rd(m', b) {
        WordFrame(v.cfg.fold, v.mem, a, val, b);
      }
      PageFrame(v, m', code, vpn);
    }
  }

  // --- a run without discipline ------------------------------------------------------

  const STALE_CONFIG := Config(false, FoldOf(false), true, false, 0, 0, 0)

  /** User tables at 0x10000 that map page 1. */
  ghost predicate MapsOne(v: View, pte: u32) {
    var f := FoldOf(false);
    v.cfg == STALE_CONFIG && v.psr < 0x8000_0000 &&
    R32(f, v.mem, DATA_CMMU + UAPR) == 0x1_0001 && R32(f, v.mem, 0x1_0000) == 0x1_1001 &&
    R32(f, v.mem, 0x1_1004) == pte
  }

  lemma MappedPage(v: View, pte: u32)
    requires MapsOne(v, pte) && (pte == 0x5001 || pte == 0x6001)
    ensures Apr(v, false) == 0x1_0001 && Walk(v.cfg, v.mem, 0x1_0001, 1) == Some(pte)
  {
    hide R32, PageBase, BiasedAt;
    TableBases();
  }

  lemma TableBases()
    ensures PageBase(0x1_0001) == 0x1_0000 && PageBase(0x1_1001) == 0x1_1000
    ensures PageBase(0x5001) == 0x5000 && PageBase(0x6001) == 0x6000
  {
  }

  /** What an access to page 1 gets: a walk, or an entry left by one. */
  lemma AccessOne(v: View, t: Tlb, pte: u32)
    requires MapsOne(v, pte) && (pte == 0x5001 || pte == 0x6001)
    ensures Resolve(v, 0x1000, false) == (pte - 1, v)
    ensures Lookup(t, false, 1) == None ==>
      Translate(v, t, 0x1000, false) == Ans(pte - 1, v, Fill(t, false, 1, PageBase(pte), false))
    ensures Lookup(t, false, 1) == Some(Entry(0x8000_0001, 0x5000, false)) ==>
      Translate(v, t, 0x1000, false) == Ans(0x5000, v, t)
  {
    hide MapsOne, Walk, Apr, Lookup, Fill, PageBase;
    MappedPage(v, pte);
    TableBases();
    assert v.cfg == STALE_CONFIG by { OneConfig(v, pte); }
  }

  lemma OneConfig(v: View, pte: u32)
    requires MapsOne(v, pte)
    ensures v.cfg == STALE_CONFIG
  {
  }

  /** Rewriting the descriptor remaps the page, and is no flush. */
  lemma RemapOne(v: View)
    requires MapsOne(v, 0x5001)
    ensures MapsOne(StoreWord(v, 0x1_1004, 0x6001), 0x6001) && !Flushes(0x1_1004, 0x6001)
  {
    hide R32, W32;
    CphysIsPageFold(false);
    WordRoundTrip(FoldOf(false), v.mem, 0x1_1004, 0x6001);
    RamWordsApart(v.mem, DATA_CMMU + UAPR, 0x1_1004, 0x6001);
    RamWordsApart(v.mem, 0x1_0000, 0x1_1004, 0x6001);
  }

  /** Access, change of the descriptor, access again with no flush between: the cache
      answers from the old page. */
  lemma StaleRunExample(v: View)
    requires MapsOne(v, 0x5001) && !v.xlatWrite
    ensures var es := [Access(0x1000, false, false), Store(0x1_1004, 0x6001), Access(0x1000, false, false)];
      Run(v, EmptyTlb(), es).0 == [0x5000, 0, 0x5000] && RefRun(v, es).0 == [0x5000, 0, 0x6000]
  {
    hide Translate, Resolve, StoreWord, MapsOne, EmptyTlb, Fill, Lookup, PageBase;
    var a1, s2 := Access(0x1000, false, false), Store(0x1_1004, 0x6001);
    var es := [a1, s2, a1];
    assert es[1..] == [s2, a1] && [s2, a1][1..] == [a1] && [a1][1..] == [];
    assert v.(xlatWrite := false) == v;
    var w := StoreWord(v, 0x1_1004, 0x6001);
    StoreKeepsMark(v);
    RemapOne(v);
    TableBases();
    FilledOne();
    AccessOne(v, EmptyTlb(), 0x5001);
    var t := Fill(EmptyTlb(), false, 1, 0x5000, false);
    AccessOne(w, t, 0x6001);
    assert w.(xlatWrite := false) == w;
    assert RefStep(w, a1) == (0x6000, w) && RefRun(w, []) == ([], w);
    assert Run(w, t, [a1]) == ([0x5000] + [], w) && RefRun(w, [a1]) == ([0x6000] + [], w);
    assert RefStep(v, s2) == (0, w) && RefStep(v, a1) == (0x5000, v);
    assert Run(v, t, [s2, a1]).0 == [0] + [0x5000] && RefRun(v, [s2, a1]).0 == [0] + [0x6000];
  }

  lemma StoreKeepsMark(v: View)
    ensures StoreWord(v, 0x1_1004, 0x6001).xlatWrite == v.xlatWrite
  {
    hide W32;
  }

  lemma FilledOne()
    ensures Lookup(EmptyTlb(), false, 1) == None
    ensures Lookup(Fill(EmptyTlb(), false, 1, 0x5000, false), false, 1) == Some(Entry(0x8000_0001, 0x5000, false))
  {
  }

  /** There is such a machine. */
  lemma StaleRunStart(psr: u32)
    requires psr < 0x8000_0000
    ensures exists v: View :: MapsOne(v, 0x5001) && v.psr == psr && !v.xlatWrite
  {
    hide R32, W32;
    var f := FoldOf(false);
    var m1 := W32(f, map[], DATA_CMMU + UAPR, 0x1_0001);
    var m2 := W32(f, m1, 0x1_0000, 0x1_1001);
    var m3 := W32(f, m2, 0x1_1004, 0x5001);
    CphysIsPageFold(false);
    WordRoundTrip(f, map[], DATA_CMMU + UAPR, 0x1_0001);
    WordRoundTrip(f, m1, 0x1_0000, 0x1_1001);
    WordRoundTrip(f, m2, 0x1_1004, 0x5001);
    RamWordsApart(m1, DATA_CMMU + UAPR, 0x1_0000, 0x1_1001);
    RamWordsApart(m2, DATA_CMMU + UAPR, 0x1_1004, 0x5001);
    RamWordsApart(m2, 0x1_0000, 0x1_1004, 0x5001);
    var v := View(STALE_CONFIG, m3, [], 0, psr, 0, false, Fault(false, 0, false, false, 0, 0), 0, 0, 0);
    assert MapsOne(v, 0x5001);
  }
}
