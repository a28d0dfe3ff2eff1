/** The synthetic boot loader's page tables: what the two loops write is what
    the walk reads back, page for page. */
module BootTables {
  import opened Words
  import opened Memory
  import opened Mmu

  // --- frames of RAM as 1024 words --------------------------------------------

  type Index = i: int | 0 <= i < 1024

  /** Word i of the RAM frame g (g is already folded). */
  function WordAt(m: Store, g: Frame, i: Index): u32 {
    Be32(Rd(m, g + 4 * i), Rd(m, g + 4 * i + 1), Rd(m, g + 4 * i + 2), Rd(m, g + 4 * i + 3))
  }

  function SetWord(m: Store, g: Frame, i: Index, v: u32): Store {
    m[g + 4 * i := Byte(v, 0)][g + 4 * i + 1 := Byte(v, 1)][g + 4 * i + 2 := Byte(v, 2)][g + 4 * i + 3 := Byte(v, 3)]
  }

  ghost predicate Zeroed(m: Store, m': Store, g: Frame) {
    forall c: int :: Rd(m', c) == if g <= c < g + 4096 then 0 else Rd(m, c)
  }

  lemma SlotWord(f: Fold, m: Store, x: Frame, i: Index, v: u32)
    requires PageFold(f)
    ensures f(x) % 4096 == 0
    ensures R32(f, m, Slot(x, i)) == WordAt(m, f(x), i)
    ensures W32(f, m, Slot(x, i), v) == SetWord(m, f(x), i, v)
  {
    hide Be32, Byte, R32, W32;
    var a := Slot(x, i);
    assert f(x) % 4096 == x % 4096;
    assert a / 4096 == x / 4096 && a % 4096 == 4 * i;
    assert f(a) - a == f(x) - x;
    WordInPage(f, m, a, v);
  }

  lemma FramesApart(g: Frame, h: Frame, i: Index, j: Index, k: int)
    requires !(g == h && i == j) && 0 <= k < 4
    ensures h + 4 * j + k < g + 4 * i || h + 4 * j + k > g + 4 * i + 3
  {
    if g != h {
      assert g / 4096 != h / 4096;
      assert (g + 4 * i) / 4096 == g / 4096 && (h + 4 * j) / 4096 == h / 4096;
    }
  }

  lemma ReadAfterSet(m: Store, g: Frame, i: Index, v: u32, h: Frame, j: Index)
    ensures WordAt(SetWord(m, g, i, v), h, j) == if g == h && i == j then v else WordAt(m, h, j)
  {
    hide Be32, Byte;
    BytesOfWord(v);
    if !(g == h && i == j) {
      FramesApart(g, h, i, j, 0); FramesApart(g, h, i, j, 1);
      FramesApart(g, h, i, j, 2); FramesApart(g, h, i, j, 3);
    }
  }

  lemma ByteAfterZero(m: Store, m': Store, g: Frame, h: Frame, c: int)
    requires Zeroed(m, m', g) && h <= c < h + 4096
    ensures Rd(m', c) == if g == h then 0 else Rd(m, c)
  {
    assert c / 4096 == h / 4096;
  }

  lemma ZeroWord()
    ensures Be32(0, 0, 0, 0) == 0
  {
    BigFour(0, 0, 0, 0);
  }

  lemma ReadAfterZero(m: Store, m': Store, g: Frame, h: Frame, j: Index)
    requires Zeroed(m, m', g)
    ensures WordAt(m', h, j) == if g == h then 0 else WordAt(m, h, j)
  {
    hide Rd, Be32, Zeroed;
    ZeroWord();
    var a := h + 4 * j;
    ByteAfterZero(m, m', g, h, a); ByteAfterZero(m, m', g, h, a + 1);
    ByteAfterZero(m, m', g, h, a + 2); ByteAfterZero(m, m', g, h, a + 3);
  }

  // --- two directories over one pool ------------------------------------------

  /** A descriptor: the frame with its valid bit. */
  function Tag(x: Frame): u32 { x + 1 }

  /** What a walk from root g finds for a page. */
  function Find(m: Store, g: Frame, vpn: VPN): Option<u32> {
    var sd := WordAt(m, g, vpn / 1024);
    if sd % 2 == 0 then None else
    var pd := WordAt(m, PageBase(sd), vpn % 1024);
    if pd % 2 == 0 then None else Some(pd)
  }

  /** Both roots lie outside the pool; every valid segment descriptor names a
      pool page below `next`, and no two name the same one. */
  ghost predicate Inv(m: Store, g: Frame, h: Frame, start: Frame, next: Frame) {
    && g != h && start <= next
    && !(start <= g < DEVICES) && !(start <= h < DEVICES) && next <= DEVICES
    && InPool(m, g, start, next) && InPool(m, h, start, next)
    && OwnPages(m, g) && OwnPages(m, h)
    && (forall i: Index, j: Index :: WordAt(m, g, i) % 2 == 1 && WordAt(m, h, j) % 2 == 1 ==>
          PageBase(WordAt(m, g, i)) != PageBase(WordAt(m, h, j)))
  }

  ghost predicate InPool(m: Store, g: Frame, start: Frame, next: Frame) {
    forall i: Index :: WordAt(m, g, i) % 2 == 1 ==> start <= PageBase(WordAt(m, g, i)) < next
  }

  ghost predicate OwnPages(m: Store, g: Frame) {
    forall i: Index, j: Index :: i != j && WordAt(m, g, i) % 2 == 1 && WordAt(m, g, j) % 2 == 1 ==>
      PageBase(WordAt(m, g, i)) != PageBase(WordAt(m, g, j))
  }

  lemma InvSwap(m: Store, g: Frame, h: Frame, start: Frame, next: Frame)
    requires Inv(m, g, h, start, next)
    ensures Inv(m, h, g, start, next)
  {
    hide WordAt, PageBase;
  }

  /** Writing a page descriptor into an existing page table of root g. */
  lemma DescriptorWritten(m: Store, g: Frame, h: Frame, start: Frame, next: Frame, vpn: VPN, pd: u32)
    requires Inv(m, g, h, start, next) && WordAt(m, g, vpn / 1024) % 2 == 1 && pd % 2 == 1
    ensures var m' := SetWord(m, PageBase(WordAt(m, g, vpn / 1024)), vpn % 1024, pd);
      && Inv(m', g, h, start, next)
      && (forall i: Index :: WordAt(m', g, i) == WordAt(m, g, i) && WordAt(m', h, i) == WordAt(m, h, i))
      && (forall w: VPN :: Find(m', h, w) == Find(m, h, w))
      && (forall w: VPN :: Find(m', g, w) == if w == vpn then Some(pd) else Find(m, g, w))
  {
    hide WordAt, PageBase, SetWord;
    var p := PageBase(WordAt(m, g, vpn / 1024));
    var m' := SetWord(m, p, vpn % 1024, pd);
    forall i: Index ensures WordAt(m', g, i) == WordAt(m, g, i) && WordAt(m', h, i) == WordAt(m, h, i) {
      ReadAfterSet(m, p, vpn % 1024, pd, g, i);
      ReadAfterSet(m, p, vpn % 1024, pd, h, i);
    }
    forall w: VPN
      ensures Find(m', h, w) == Find(m, h, w)
      ensures Find(m', g, w) == if w == vpn then Some(pd) else Find(m, g, w)
    {
      ReadAfterSet(m, p, vpn % 1024, pd, PageBase(WordAt(m, g, w / 1024)), w % 1024);
      ReadAfterSet(m, p, vpn % 1024, pd, PageBase(WordAt(m, h, w / 1024)), w % 1024);
      assert w == w / 1024 * 1024 + w % 1024;
    }
  }

  /** Taking the next pool page for a segment of root g that has none. */
  lemma SegmentAdded(m: Store, z: Store, g: Frame, h: Frame, start: Frame, next: Frame, s: Index)
    requires Inv(m, g, h, start, next) && WordAt(m, g, s) % 2 == 0
    requires next < DEVICES && Zeroed(m, z, next)
    ensures var m' := SetWord(z, g, s, Tag(next));
      && Inv(m', g, h, start, NextFrame(next))
      && WordAt(m', g, s) == Tag(next)
      && (forall i: Index :: i != s ==> WordAt(m', g, i) == WordAt(m, g, i))
      && (forall w: VPN :: Find(m', g, w) == Find(m, g, w) && Find(m', h, w) == Find(m, h, w))
  {
    hide WordAt, PageBase, SetWord, Zeroed, Tag;
    var m' := SetWord(z, g, s, Tag(next));
    Tagged(next);
    forall x: Frame, i: Index
      ensures WordAt(m', x, i) == if x == g && i == s then Tag(next) else if x == next then 0 else WordAt(m, x, i)
    {
      ReadAfterSet(z, g, s, Tag(next), x, i);
      ReadAfterZero(m, z, next, x, i);
    }
    forall w: VPN ensures Find(m', g, w) == Find(m, g, w) && Find(m', h, w) == Find(m, h, w) {
      var a, b := WordAt(m, g, w / 1024), WordAt(m, h, w / 1024);
      assert a % 2 == 1 ==> PageBase(a) < next && PageBase(a) != g;
      assert b % 2 == 1 ==> PageBase(b) < next && PageBase(b) != g;
    }
  }

  lemma Tagged(x: Frame)
    ensures PageBase(Tag(x)) == x && Tag(x) % 2 == 1 && !WriteProtected(Tag(x))
  {
    var q := x / 4096;
    DivModUnique(x + 1, 4096, q, 1);
    DivModUnique(x + 1, 2, 2048 * q, 1);
    DivModUnique(x + 1, 4, 1024 * q, 1);
    DivModUnique(1024 * q, 2, 512 * q, 0);
  }

  // --- the intended map ---------------------------------------------------------

  /** Descriptor for the page at va mapped at va - off. */
  function Direct(vpn: VPN, off: u32): u32 { Tag(PageBase(Wrap(vpn * 4096 - off))) }

  /** Under a page-aligned offset the descriptor maps every byte va to va - off,
      writable. */
  lemma DirectMaps(va: u32, off: Frame)
    ensures At(PageBase(Direct(Vpn(va), off)), va) == Wrap(va - off) && !WriteProtected(Direct(Vpn(va), off))
  {
    hide PageBase, WriteProtected, Tag;
    var x := Wrap(Vpn(va) * 4096 - off);
    Tagged(PageBase(x));
    WrapSplit(va, off);
  }

  lemma WrapSplit(va: u32, off: Frame)
    ensures At(PageBase(Wrap(Vpn(va) * 4096 - off)), va) == Wrap(va - off)
  {
    var q, r, o := va / 4096, va % 4096, off / 4096;
    var d := q - o;
    assert va == 4096 * q + r && off == 4096 * o;
    var e := if d >= 0 then d else d + 0x10_0000;
    assert Wrap(q * 4096 - off) == 4096 * e;
    assert Wrap(va - off) == 4096 * e + r;
    assert PageBase(4096 * e) == 4096 * e;
  }

  predicate DeviceWindow(vpn: VPN) {
    0xE0700 <= vpn < 0xE0800 || 0xFF040 <= vpn < 0xFF050 || 0xFFF70 <= vpn < 0xFFF80
  }

  /** Kernel text and data at their load offsets, the three device windows at
      themselves, nothing else. */
  function Intended(realmm: bool, kdataVa: Frame, kdataOff: Frame, vpn: VPN): Option<u32> {
    var split := if kdataOff != 0 then Vpn(kdataVa) else 0xE_0000;
    if 0xC_0000 <= vpn < split then Some(Direct(vpn, if realmm then KOFF else 0))
    else if split <= vpn < 0xE_0000 then Some(Direct(vpn, kdataOff))
    else if DeviceWindow(vpn) then Some(Direct(vpn, 0))
    else None
  }

  /** 4 MB segments the pages [a, b) lie in. */
  function Span(a: int, b: int): int { (b + 1023) / 1024 - a / 1024 }

  /** The pool is ordinary RAM: nothing folds in or out of it. */
  ghost predicate Plain(f: Fold, start: Frame) {
    PageFold(f) && forall x: Frame :: start <= x < DEVICES ==> f(x) == x
  }

  class Loader {
    const realmm: bool
    const fold: Fold
    const kdataVa: Frame
    const kdataOff: Frame
    var mem: Store
    var next: Frame

    constructor (realmm: bool, kdataVa: Frame, kdataOff: Frame, mem: Store, next: Frame)
      ensures this.realmm == realmm && fold == FoldOf(realmm)
      ensures this.kdataVa == kdataVa && this.kdataOff == kdataOff && this.mem == mem && this.next == next
    {
      this.realmm, fold, this.kdataVa, this.kdataOff := realmm, FoldOf(realmm), kdataVa, kdataOff;
      this.mem, this.next := mem, next;
    }

    /** Clear one page a byte at a time. */
    method ZeroPage(x: Frame)
      requires PageFold(fold)
      modifies this`mem
      ensures fold(x) % 4096 == 0 && Zeroed(old(mem), mem, fold(x))
    {
      assert fold(x) % 4096 == x % 4096;
      for i := 0 to 4096
        invariant forall c: int :: Rd(mem, c) == if fold(x) <= c < fold(x) + i then 0 else Rd(old(mem), c)
      {
        assert (x + i) / 4096 == x / 4096;
        assert fold(x + i) - (x + i) == fold(x) - x;
        mem := W8(fold, mem, x + i, 0);
      }
    }

    /** One turn of the mapping loop. */
    method MapPage(segtab: Frame, vpn: VPN, off: u32, ghost g: Frame, ghost h: Frame, ghost start: Frame)
      requires Plain(fold, start) && g == fold(segtab) && Inv(mem, g, h, start, next)
      requires WordAt(mem, g, vpn / 1024) % 2 == 1 || next < DEVICES
      modifies this`mem, this`next
      ensures Inv(mem, g, h, start, next)
      ensures WordAt(mem, g, vpn / 1024) % 2 == 1
      ensures old(WordAt(mem, g, vpn / 1024)) % 2 == 1 ==> next == old(next)
      ensures old(next) <= next <= old(next) + 4096
      ensures forall w: VPN :: Find(mem, h, w) == Find(old(mem), h, w)
      ensures forall w: VPN :: Find(mem, g, w) == if w == vpn then Some(Direct(vpn, off)) else Find(old(mem), g, w)
    {
      hide WordAt, PageBase, SetWord, R32, W32, Tag, Inv, PageFold, Find, Zeroed;
      SlotWord(fold, mem, segtab, vpn / 1024, 0);
      var sd := R32(fold, mem, Slot(segtab, vpn / 1024));
      var pgtab: Frame;
      if sd % 2 == 1 {
        pgtab := PageBase(sd);
      } else {
        pgtab := next;
        ghost var was := mem;
        InvBounds(mem, g, h, start, next);
        next := NextFrame(next);
        ZeroPage(pgtab);
        SlotWord(fold, mem, segtab, vpn / 1024, Tag(pgtab));
        SegmentAdded(was, mem, g, h, start, pgtab, vpn / 1024);
        mem := W32(fold, mem, Slot(segtab, vpn / 1024), Tag(pgtab));
        Tagged(pgtab);
      }
      assert pgtab == PageBase(WordAt(mem, g, vpn / 1024));
      PoolPage(mem, g, h, start, next, vpn / 1024);
      var pd := Direct(vpn, off);
      Tagged(PageBase(Wrap(vpn * 4096 - off)));
      SlotWord(fold, mem, pgtab, vpn % 1024, pd);
      DescriptorWritten(mem, g, h, start, next, vpn, pd);
      mem := W32(fold, mem, Slot(pgtab, vpn % 1024), pd);
    }

    /** Map [lo, hi) with physical address va - off. */
    method MapRangeOff(segtab: Frame, lo: Frame, hi: Frame, off: u32, ghost g: Frame, ghost h: Frame,
      ghost start: Frame)
      requires Plain(fold, start) && g == fold(segtab) && Inv(mem, g, h, start, next)
      requires lo <= hi && next + 4096 * Span(Vpn(lo), Vpn(hi)) <= DEVICES
      modifies this`mem, this`next
      ensures Inv(mem, g, h, start, next)
      ensures next <= old(next) + 4096 * Span(Vpn(lo), Vpn(hi))
      ensures forall w: VPN :: Find(mem, h, w) == Find(old(mem), h, w)
      ensures forall w: VPN ::
        Find(mem, g, w) == if Vpn(lo) <= w < Vpn(hi) then Some(Direct(w, off)) else Find(old(mem), g, w)
    {
      hide WordAt, Inv, Find, Direct, Plain, Span;
      var va: int := lo;
      ghost var a, b, n := Vpn(lo), Vpn(hi), Vpn(lo);
      SpanStep(a, a);
      while va < hi
        invariant va == n * 4096 && a <= n <= b
        invariant Inv(mem, g, h, start, next)
        invariant next <= old(next) + 4096 * Span(a, n)
        invariant n == a ==> next == old(next)
        invariant n > a && n % 1024 != 0 ==> WordAt(mem, g, n / 1024) % 2 == 1
        invariant forall w: VPN :: Find(mem, h, w) == Find(old(mem), h, w)
        invariant forall w: VPN ::
          Find(mem, g, w) == if a <= w < n then Some(Direct(w, off)) else Find(old(mem), g, w)
      {
        SpanStep(a, n);
        SpanMonotone(a, n + 1, b);
        MapPage(segtab, va / 4096, off, g, h, start);
        va := va + 4096;
        n := n + 1;
      }
    }

    /** One of the three device windows, identity-mapped in both tables. */
    method MapBoth(lo: Frame, hi: Frame, off: u32, ghost g: Frame, ghost h: Frame, ghost start: Frame)
      requires Plain(fold, start) && g == fold(CODE_SEGTAB) && h == fold(DATA_SEGTAB) && Inv(mem, g, h, start, next)
      requires lo <= hi && next + 4096 * (2 * Span(Vpn(lo), Vpn(hi))) <= DEVICES
      modifies this`mem, this`next
      ensures Inv(mem, g, h, start, next)
      ensures next <= old(next) + 4096 * (2 * Span(Vpn(lo), Vpn(hi)))
      ensures forall w: VPN :: var pd := Some(Direct(w, off));
        && Find(mem, g, w) == (if Vpn(lo) <= w < Vpn(hi) then pd else Find(old(mem), g, w))
        && Find(mem, h, w) == (if Vpn(lo) <= w < Vpn(hi) then pd else Find(old(mem), h, w))
    {
      hide Inv, Find, Direct, Plain, Span;
      SpanMonotone(Vpn(lo), Vpn(lo), Vpn(hi));
      SpanStep(Vpn(lo), Vpn(lo));
      MapRangeOff(CODE_SEGTAB, lo, hi, off, g, h, start);
      InvSwap(mem, g, h, start, next);
      MapRangeOff(DATA_SEGTAB, lo, hi, off, h, g, start);
      InvSwap(mem, h, g, start, next);
    }

    /** Both tables, then the area pointers the kernel will find in place. */
    method BuildTables()
      requires fold == FoldOf(realmm)
      requires kdataOff != 0 ==> KOFF <= kdataVa <= DEVICES
      requires KOFF <= next && next + 4096 * 264 <= DEVICES
      modifies this`mem, this`next
      ensures forall c: Config, vpn: VPN :: c.fold == fold && c.ktabBias == 0 ==>
        && Walk(c, mem, CODE_SEGTAB + 1, vpn) == Intended(realmm, kdataVa, kdataOff, vpn)
        && Walk(c, mem, DATA_SEGTAB + 1, vpn) == Intended(realmm, kdataVa, kdataOff, vpn)
      ensures R32(fold, mem, CODE_CMMU + SAPR) == CODE_SEGTAB + 1
      ensures R32(fold, mem, DATA_CMMU + SAPR) == DATA_SEGTAB + 1
      ensures R32(fold, mem, CODE_CMMU + UAPR) == R32(fold, mem, DATA_CMMU + UAPR) == DATA_SEGTAB + 1
      ensures exists g: Frame, h: Frame ::
        g == fold(CODE_SEGTAB) && h == fold(DATA_SEGTAB) && Inv(mem, g, h, old(next), next)
    {
      hide Inv, Find, Direct, Plain, Span, Walk, R32, W32;
      ghost var start := next;
      ghost var g: Frame, h: Frame := fold(CODE_SEGTAB), fold(DATA_SEGTAB);
      Roots(realmm, start);
      ZeroPage(CODE_SEGTAB);
      ghost var m1 := mem;
      ZeroPage(DATA_SEGTAB);
      EmptyTables(old(mem), m1, mem, g, h, start);
      var koff := if realmm then KOFF else 0;
      var split := if kdataOff != 0 then kdataVa else DEVICES;
      KernelSpans(split);
      MapBoth(KOFF, split, koff, g, h, start);
      if kdataOff != 0 {
        MapBoth(split, DEVICES, kdataOff, g, h, start);
      }
      MapBoth(0xE070_0000, 0xE080_0000, 0, g, h, start);
      MapBoth(0xFF04_0000, 0xFF05_0000, 0, g, h, start);
      MapBoth(0xFFF7_0000, 0xFFF8_0000, 0, g, h, start);
      ghost var built := mem;
      assert forall w: VPN :: Find(built, g, w) == Intended(realmm, kdataVa, kdataOff, w);
      assert forall w: VPN :: Find(built, h, w) == Intended(realmm, kdataVa, kdataOff, w);
      LoadAreaPointers(g, h, start);
      forall c: Config, vpn: VPN | c.fold == fold && c.ktabBias == 0
        ensures Walk(c, mem, CODE_SEGTAB + 1, vpn) == Find(mem, g, vpn)
        ensures Walk(c, mem, DATA_SEGTAB + 1, vpn) == Find(mem, h, vpn)
      {
        WalkIsFind(c, mem, CODE_SEGTAB, g, h, start, next, vpn);
        InvSwap(mem, g, h, start, next);
        WalkIsFind(c, mem, DATA_SEGTAB, h, g, start, next, vpn);
      }
    }

    /** Preload the four area pointers as the kernel will later write them. */
    method LoadAreaPointers(ghost g: Frame, ghost h: Frame, ghost start: Frame)
      requires Plain(fold, start) && fold(CODE_CMMU) == CODE_CMMU && fold(DATA_CMMU) == DATA_CMMU
      requires Inv(mem, g, h, start, next) && g < CODE_CMMU - 0x1000 && h < CODE_CMMU - 0x1000
      modifies this`mem
      ensures Inv(mem, g, h, start, next)
      ensures forall w: VPN :: Find(mem, g, w) == Find(old(mem), g, w) && Find(mem, h, w) == Find(old(mem), h, w)
      ensures R32(fold, mem, CODE_CMMU + SAPR) == CODE_SEGTAB + 1
      ensures R32(fold, mem, DATA_CMMU + SAPR) == DATA_SEGTAB + 1
      ensures R32(fold, mem, CODE_CMMU + UAPR) == R32(fold, mem, DATA_CMMU + UAPR) == DATA_SEGTAB + 1
    {
      hide Inv, Find, Plain, R32, W32, WordAt, SetWord, PageFold;
      var present: seq<Frame> := [CODE_CMMU, DATA_CMMU];
      for k := 0 to 2
        invariant Inv(mem, g, h, start, next)
        invariant forall w: VPN :: Find(mem, g, w) == Find(old(mem), g, w) && Find(mem, h, w) == Find(old(mem), h, w)
        invariant k >= 1 ==> WordAt(mem, CODE_CMMU, 0x80) == CODE_SEGTAB + 1
        invariant k >= 1 ==> WordAt(mem, CODE_CMMU, 0x81) == DATA_SEGTAB + 1
        invariant k >= 2 ==> WordAt(mem, DATA_CMMU, 0x80) == DATA_SEGTAB + 1
        invariant k >= 2 ==> WordAt(mem, DATA_CMMU, 0x81) == DATA_SEGTAB + 1
      {
        var base := present[k];
        var tab := if base == CODE_CMMU then CODE_SEGTAB else DATA_SEGTAB;
        PokeWord(base, 0x80, tab + 1, g, h, start);
        PokeWord(base, 0x81, DATA_SEGTAB + 1, g, h, start);
      }
      PlainFold(fold, start);
      SlotWord(fold, mem, CODE_CMMU, 0x80, 0); SlotWord(fold, mem, CODE_CMMU, 0x81, 0);
      SlotWord(fold, mem, DATA_CMMU, 0x80, 0); SlotWord(fold, mem, DATA_CMMU, 0x81, 0);
    }

    /** A word stored in a register page, clear of both tables. */
    method PokeWord(base: Frame, i: Index, v: u32, ghost g: Frame, ghost h: Frame, ghost start: Frame)
      requires Plain(fold, start) && fold(base) == base && base >= DEVICES && base != g && base != h
      requires Inv(mem, g, h, start, next)
      modifies this`mem
      ensures Inv(mem, g, h, start, next)
      ensures forall w: VPN :: Find(mem, g, w) == Find(old(mem), g, w) && Find(mem, h, w) == Find(old(mem), h, w)
      ensures forall b: Frame, j: Index ::
        WordAt(mem, b, j) == if base == b && i == j then v else WordAt(old(mem), b, j)
    {
      hide Inv, Find, R32, W32, WordAt, SetWord, PageFold;
      PlainFold(fold, start);
      SlotWord(fold, mem, base, i, v);
      forall b: Frame, j: Index
        ensures WordAt(SetWord(mem, base, i, v), b, j) == if base == b && i == j then v else WordAt(mem, b, j)
      {
        ReadAfterSet(mem, base, i, v, b, j);
      }
      WriteElsewhere(mem, g, h, start, next, base, i, v);
      mem := W32(fold, mem, Slot(base, i), v);
    }
  }

  lemma PlainFold(f: Fold, start: Frame)
    requires Plain(f, start)
    ensures PageFold(f)
  {
    hide PageFold;
  }

  lemma WriteElsewhere(m: Store, g: Frame, h: Frame, start: Frame, next: Frame, base: Frame, i: Index, v: u32)
    requires Inv(m, g, h, start, next) && base >= DEVICES && base != g && base != h
    ensures var m' := SetWord(m, base, i, v);
      && Inv(m', g, h, start, next)
      && forall w: VPN :: Find(m', g, w) == Find(m, g, w) && Find(m', h, w) == Find(m, h, w)
  {
    hide WordAt, SetWord, PageBase;
    var m' := SetWord(m, base, i, v);
    forall b: Frame, j: Index | b != base ensures WordAt(m', b, j) == WordAt(m, b, j) {
      ReadAfterSet(m, base, i, v, b, j);
    }
  }

  /** With no table bias the walk is the two-word lookup. */
  lemma WalkIsFind(c: Config, m: Store, segtab: Frame, g: Frame, h: Frame, start: Frame, next: Frame, vpn: VPN)
    requires c.ktabBias == 0 && Plain(c.fold, start) && g == c.fold(segtab) && segtab != 0
    requires Inv(m, g, h, start, next)
    ensures Walk(c, m, segtab + 1, vpn) == Find(m, g, vpn)
  {
    hide WordAt, R32, W32, SetWord, PageBase, PageFold;
    Tagged(segtab);
    PlainFold(c.fold, start);
    SlotWord(c.fold, m, segtab, vpn / 1024, 0);
    var sd := WordAt(m, g, vpn / 1024);
    if sd % 2 == 1 {
      PoolPage(m, g, h, start, next, vpn / 1024);
      SlotWord(c.fold, m, PageBase(sd), vpn % 1024, 0);
    }
  }

  lemma Roots(realmm: bool, start: Frame)
    requires KOFF <= start <= DEVICES
    ensures Plain(FoldOf(realmm), start)
    ensures FoldOf(realmm)(CODE_SEGTAB) == CODE_SEGTAB
    ensures FoldOf(realmm)(DATA_SEGTAB) == if realmm then 0x3F_0000 else DATA_SEGTAB
    ensures FoldOf(realmm)(CODE_CMMU) == CODE_CMMU && FoldOf(realmm)(DATA_CMMU) == DATA_CMMU
  {
    CphysIsPageFold(realmm);
  }

  lemma EmptyTables(m0: Store, m1: Store, m2: Store, g: Frame, h: Frame, start: Frame)
    requires Zeroed(m0, m1, g) && Zeroed(m1, m2, h) && g != h
    requires !(start <= g < DEVICES) && !(start <= h < DEVICES) && start <= DEVICES
    ensures Inv(m2, g, h, start, start)
    ensures forall w: VPN :: Find(m2, g, w) == None && Find(m2, h, w) == None
  {
    hide WordAt, Zeroed, PageBase;
    forall i: Index ensures WordAt(m2, g, i) == 0 && WordAt(m2, h, i) == 0 {
      ReadAfterZero(m0, m1, g, g, i);
      ReadAfterZero(m1, m2, h, g, i);
      ReadAfterZero(m1, m2, h, h, i);
    }
  }

  lemma KernelSpans(split: Frame)
    requires KOFF <= split <= DEVICES
    ensures 0 <= Span(Vpn(KOFF), Vpn(split)) && 0 <= Span(Vpn(split), Vpn(DEVICES))
    ensures Span(Vpn(KOFF), Vpn(split)) + Span(Vpn(split), Vpn(DEVICES)) <= 129
    ensures Span(Vpn(0xE070_0000), Vpn(0xE080_0000)) == 1
    ensures Span(Vpn(0xFF04_0000), Vpn(0xFF05_0000)) == 1
    ensures Span(Vpn(0xFFF7_0000), Vpn(0xFFF8_0000)) == 1
  {
  }

  lemma SpanStep(a: nat, n: nat)
    requires a <= n
    ensures 0 <= Span(a, n) <= Span(a, n + 1)
    ensures n % 1024 == 0 ==> Span(a, n + 1) == Span(a, n) + 1
    ensures n == a ==> Span(a, n + 1) == 1
    ensures (n + 1) % 1024 != 0 ==> (n + 1) / 1024 == n / 1024
  {
  }

  lemma SpanMonotone(a: nat, n: nat, b: nat)
    requires n <= b
    ensures Span(a, n) <= Span(a, b)
  {
  }

  lemma InvBounds(m: Store, g: Frame, h: Frame, start: Frame, next: Frame)
    requires Inv(m, g, h, start, next)
    ensures start <= next <= DEVICES
  {
  }

  lemma PoolPage(m: Store, g: Frame, h: Frame, start: Frame, next: Frame, i: Index)
    requires Inv(m, g, h, start, next) && WordAt(m, g, i) % 2 == 1
    ensures start <= PageBase(WordAt(m, g, i)) < DEVICES
  {
    hide WordAt, PageBase;
  }
}
