/** System calls the emulator answers itself: the caller's buffer is made
    resident before any byte moves, and a fault repeats the whole call. */
module Syscalls {
  import opened Words
  import opened Memory
  import opened Mmu
  import opened Lines
  import opened Terminal
  import opened MmuUnit

  const READ_MAX: nat := 4096
  const WRITE_MAX: nat := 0x10_0000

  // --- user memory, byte by byte -----------------------------------------------------

  function Cleared(v: View): View { v.(fault := v.fault.(pending := false)) }

  datatype Touched = Touched(missing: Option<Frame>, v: View, t: Tlb)

  /** Translate every page from p up to end, stopping at the first that is not
      there. */
  function Touch(v: View, t: Tlb, p: Frame, end: Frame): Touched
    decreases Gap(p, end)
  {
    if p == end then Touched(None, v, t) else
      var a := Translate(Cleared(v), t, p, false);
      if a.v.fault.pending || a.pa == 0 then Touched(Some(p), a.v, a.t)
      else
        PagesLeft(p, end);
        Touch(a.v, a.t, NextFrame(p), end)
  }

  function Gap(p: Frame, end: Frame): nat { Wrap(end - p) }

  lemma PagesLeft(p: Frame, end: Frame)
    requires p != end
    ensures Gap(NextFrame(p), end) < Gap(p, end)
  {
    hide Gap, NextFrame;
    NextFrameIs(p);
    GapIs(p, end);
    GapIs(NextFrame(p), end);
  }

  lemma NextFrameIs(p: Frame)
    ensures NextFrame(p) == if p == 0xFFFF_F000 then 0 else p + 4096
  {
  }

  lemma GapIs(p: Frame, end: Frame)
    ensures Gap(p, end) == if p <= end then end - p else end - p + TWO32
  {
    if end < p { DivModUnique(end - p, TWO32, -1, end - p + TWO32); }
  }

  /** One past the last page of a buffer. */
  function PageEnd(va: u32, len: u32): Frame
  {
    PageEndAligned(va, len);
    Wrap(PageBase(Wrap(va + len - 1)) + 4096)
  }

  lemma PageEndAligned(va: u32, len: u32)
    ensures Wrap(PageBase(Wrap(va + len - 1)) + 4096) % 4096 == 0
  {
    WrapOffset(PageBase(Wrap(va + len - 1)) + 4096);
  }

  datatype Checked = Resided(faulted: bool, v: View, t: Tlb)

  /** The buffer check: on a missing page the fault is left pending and the
      program counter goes back to the call. */
  function UbufFault(v: View, t: Tlb, va: u32, len: u32, forWrite: bool, tpc: u32): Checked {
    if len == 0 then Resided(false, v, t) else
      var r := Touch(v, t, PageBase(va), PageEnd(va, len));
      match r.missing
      case Some(p) => Resided(true, r.v.(fault := Fault(true, p, false, forWrite, 4, tpc), pc := tpc), r.t)
      case None => Resided(false, r.v.(fault := r.v.fault.(pending := v.fault.pending)), r.t)
  }

  datatype Moved = Moved(n: nat, v: View, t: Tlb)

  /** Store bytes until one is not resident. */
  function PutBytes(v: View, t: Tlb, va: u32, src: seq<u8>): Moved
    decreases |src|
  {
    if src == [] then Moved(0, v, t) else
      var a := Translate(Cleared(v), t, va, false);
      if a.v.fault.pending || a.pa == 0 then Moved(0, a.v, a.t)
      else
        var r := PutBytes(a.v.(mem := W8(v.cfg.fold, a.v.mem, a.pa, src[0])), a.t, Wrap(va + 1), src[1..]);
        Moved(r.n + 1, r.v, r.t)
  }

  /** The same with the fault record put back. */
  function UserWrite(v: View, t: Tlb, va: u32, src: seq<u8>): Moved {
    var r := PutBytes(v, t, va, src);
    Moved(r.n, r.v.(fault := v.fault), r.t)
  }

  datatype Fetched = Fetched(bytes: seq<u8>, v: View, t: Tlb)

  /** Load bytes, unchecked. */
  function FetchBytes(v: View, t: Tlb, va: u32, n: nat): Fetched
    decreases n
  {
    if n == 0 then Fetched([], v, t) else
      var a := Translate(v, t, va, false);
      var r := FetchBytes(a.v, a.t, Wrap(va + 1), n - 1);
      Fetched([R8(v.cfg.fold, a.v.mem, a.pa)] + r.bytes, r.v, r.t)
  }

  /** A string peeked at: up to n bytes, to the first zero or the first byte that
      is not resident. */
  function PeekStr(v: View, t: Tlb, va: u32, n: nat): Fetched
    decreases n
  {
    if n == 0 then Fetched([], v, t) else
      var a := Translate(Cleared(v), t, va, false);
      if a.v.fault.pending || a.pa == 0 || R8(v.cfg.fold, a.v.mem, a.pa) == 0 then Fetched([], a.v, a.t)
      else
        var r := PeekStr(a.v, a.t, Wrap(va + 1), n - 1);
        Fetched([R8(v.cfg.fold, a.v.mem, a.pa)] + r.bytes, r.v, r.t)
  }

  // --- a resident user page ---------------------------------------------------------------

  /** Mapped memory of a real process, seen by the emulator itself. */
  predicate UserMode(v: View) { v.cfg.translateOn && v.cfg.procexp && !v.xlatWrite }

  /** Where a user page is, as far as the cache knows. */
  function PageNow(v: View, t: Tlb, vpn: VPN): Frame {
    if Apr(v, false) % 2 == 0 then FrameOf(vpn)
    else match Lookup(t, false, vpn) case Some(e) => e.page case None => 0
  }

  predicate Resident(v: View, t: Tlb, vpn: VPN) { PageNow(v, t, vpn) != 0 }

  lemma ResidentTranslates(v: View, t: Tlb, va: u32)
    requires UserMode(v) && va < KOFF && Resident(v, t, Vpn(va))
    ensures Translate(v, t, va, false) == Ans(At(PageNow(v, t, Vpn(va)), va), v, t)
    ensures At(PageNow(v, t, Vpn(va)), va) != 0
  {
    hide Apr, Lookup, WalkFb;
  }

  /** Touching a user page either finds it, and then it stays in the cache, or
      changes nothing but the fault record. */
  lemma TouchOne(v: View, t: Tlb, p: Frame)
    requires UserMode(v) && p < KOFF
    ensures var a := Translate(Cleared(v), t, p, false);
      a.v == v.(fault := a.v.fault) &&
      (!a.v.fault.pending && a.pa != 0 ==> a.v == Cleared(v) && Resident(v, a.t, Vpn(p))) &&
      (forall vpn: VPN :: vpn % 4096 != Vpn(p) % 4096 ==> PageNow(v, a.t, vpn) == PageNow(v, t, vpn))
  {
    hide Apr, WalkFb, Lookup, Fill;
    AprSame(v, Cleared(v));
    assert FrameOf(Vpn(p)) == p && p % 4096 == 0;
    forall page: Frame, wp: bool, vpn: VPN
      ensures Lookup(Fill(t, false, Vpn(p), page, wp), false, Vpn(p)) == Some(Entry(Vpn(p) + 0x8000_0000, page, wp))
      ensures vpn % 4096 != Vpn(p) % 4096 ==>
        Lookup(Fill(t, false, Vpn(p), page, wp), false, vpn) == Lookup(t, false, vpn)
    {
      FillLookup(t, Vpn(p), page, wp, vpn);
    }
  }

  lemma AprSame(v: View, w: View)
    requires v.cfg == w.cfg && v.psr == w.psr && v.mem == w.mem
    ensures Apr(v, false) == Apr(w, false)
  {
  }

  lemma FillLookup(t: Tlb, p: VPN, page: Frame, wp: bool, vpn: VPN)
    ensures Lookup(Fill(t, false, p, page, wp), false, p) == Some(Entry(p + 0x8000_0000, page, wp))
    ensures vpn % 4096 != p % 4096 ==> Lookup(Fill(t, false, p, page, wp), false, vpn) == Lookup(t, false, vpn)
  {
  }

  lemma PeekOne(v: View, t: Tlb, va: u32)
    requires UserMode(v) && va < KOFF
    ensures var a := Translate(Cleared(v), t, va, false); a.v == v.(fault := a.v.fault)
  {
    hide Apr, WalkFb, Lookup, Fill;
  }

  /** Peeking at a process's string leaves the machine as it was once the fault
      record is put back, and finds no zero inside the string. */
  lemma {:induction false} PeekHarmless(v: View, t: Tlb, va: u32, n: nat)
    requires UserMode(v) && va + n <= KOFF
    ensures var r := PeekStr(v, t, va, n);
      r.v.(fault := v.fault) == v && 0 !in r.bytes && |r.bytes| <= n
    decreases n
  {
    hide Translate, UserMode, R8;
    if n == 0 {
    } else {
      PeekOne(v, t, va);
      var a := Translate(Cleared(v), t, va, false);
      if n > 1 {
        UserModeKept(v, a.v.fault);
        PeekHarmless(a.v, a.t, va + 1, n - 1);
      }
    }
  }

  lemma UserModeKept(v: View, f: Fault)
    ensures UserMode(v.(fault := f)) == UserMode(v)
  {
  }

  // --- a resident buffer ------------------------------------------------------------------

  predicate AllResident(v: View, t: Tlb, lo: nat, hi: nat) {
    forall vpn: VPN :: lo <= vpn < hi ==> Resident(v, t, vpn)
  }

  lemma NextPage(p: Frame, end: Frame)
    requires p < end <= KOFF
    ensures NextFrame(p) == p + 4096 <= end && Vpn(NextFrame(p)) == Vpn(p) + 1 && p != end
  {
  }

  /** Fewer than 4097 pages in a row share no cache slot. */
  lemma NeighbourKept(v: View, t: Tlb, t': Tlb, lo: nat, p: VPN)
    requires lo <= p < lo + 4096 && AllResident(v, t, lo, p) && Resident(v, t', p)
    requires forall vpn: VPN :: vpn % 4096 != p % 4096 ==> PageNow(v, t', vpn) == PageNow(v, t, vpn)
    ensures AllResident(v, t', lo, p + 1)
  {
    hide PageNow;
    forall vpn: VPN | lo <= vpn < p + 1 ensures Resident(v, t', vpn) {
      if vpn < p {
        assert vpn % 4096 != p % 4096;
        assert Resident(v, t, vpn);
      }
    }
  }

  /** What touching a range of pages leaves: nothing but the cache, which then
      has them all, or a fault record for the first missing one. */
  lemma {:induction false} TouchRange(v: View, t: Tlb, p: Frame, end: Frame, lo: nat)
    requires UserMode(v) && !v.fault.pending && p <= end <= KOFF && lo <= Vpn(p) && Vpn(end) - lo <= 4096
    requires AllResident(v, t, lo, Vpn(p))
    ensures var r := Touch(v, t, p, end);
      r.v == v.(fault := r.v.fault) &&
      (r.missing.None? ==> r.v == v && AllResident(v, r.t, lo, Vpn(end))) &&
      (r.missing.Some? ==> p <= r.missing.value < end)
    decreases end - p
  {
    hide Translate, PageNow, NextFrame, AllResident;
    if p == end {
    } else {
      TouchOne(v, t, p);
      NextPage(p, end);
      var a := Translate(v, t, p, false);
      assert Cleared(v) == v;
      if !a.v.fault.pending && a.pa != 0 {
        NeighbourKept(v, t, a.t, lo, Vpn(p));
        TouchRange(v, a.t, NextFrame(p), end, lo);
      }
    }
  }

  /** A buffer in user space that does not wrap. */
  predicate UserBuffer(va: u32, len: nat) { va + len <= KOFF }

  lemma BufferPages(va: u32, len: u32)
    requires 0 < len <= WRITE_MAX && UserBuffer(va, len)
    ensures PageEnd(va, len) == PageBase(va + len - 1) + 4096 <= KOFF
    ensures PageBase(va) < PageEnd(va, len) && Vpn(PageEnd(va, len)) - Vpn(va) <= 4096
    ensures Vpn(PageBase(va)) == Vpn(va)
  {
    var x := va + len - 1;
    assert Wrap(x) == x;
    assert x / 4096 < 0xC_0000;
    assert PageEnd(va, len) == (x / 4096 + 1) * 4096;
  }

  predicate BufferResident(v: View, t: Tlb, va: u32, len: nat) {
    len > 0 ==> AllResident(v, t, Vpn(va), (va + len - 1) / 4096 + 1)
  }

  /** A fault for one page of the buffer, the program counter at the call, and
      nothing else. */
  ghost predicate FaultLeft(v: View, w: View, va: u32, len: nat, forWrite: bool, tpc: u32) {
    exists p: Frame ::
      PageBase(va) <= p < va + len && w == v.(fault := Fault(true, p, false, forWrite, 4, tpc), pc := tpc)
  }

  /** The check either finds the whole buffer resident, and then changes only the
      cache, or leaves a fault for one of its pages and the program counter at
      the call. */
  lemma PrefaultExact(v: View, t: Tlb, va: u32, len: u32, forWrite: bool, tpc: u32)
    requires UserMode(v) && !v.fault.pending && UserBuffer(va, len) && len <= WRITE_MAX
    ensures var r := UbufFault(v, t, va, len, forWrite, tpc);
      if r.faulted then FaultLeft(v, r.v, va, len, forWrite, tpc)
      else r.v == v && BufferResident(v, r.t, va, len)
  {
    hide Touch, PageNow, Resident, Apr, PageEnd, AllResident, Wrap, UserMode;
    if len > 0 {
      BufferPages(va, len);
      NothingYet(v, t, Vpn(va));
      TouchRange(v, t, PageBase(va), PageEnd(va, len), Vpn(va));
      var r := Touch(v, t, PageBase(va), PageEnd(va, len));
      match r.missing {
        case None =>
        case Some(p) =>
          LastPage(va, len, p);
          assert UbufFault(v, t, va, len, forWrite, tpc).v ==
            v.(fault := Fault(true, p, false, forWrite, 4, tpc), pc := tpc);
      }
    }
  }

  lemma NothingYet(v: View, t: Tlb, lo: nat)
    ensures AllResident(v, t, lo, lo)
  {
  }

  lemma LastPage(va: u32, len: nat, p: Frame)
    requires 0 < len && UserBuffer(va, len) && p < PageBase(va + len - 1) + 4096
    ensures p < va + len
  {
  }

  // --- moving the bytes ---------------------------------------------------------------

  /** Physical address of a byte of a resident page. */
  function Place(v: View, t: Tlb, va: u32): u32 { At(PageNow(v, t, Vpn(va)), va) }

  /** The byte of memory that holds the active area pointer's valid bit. */
  function PointerByte(v: View): u32 {
    Lane(v.cfg.fold, DATA_CMMU + if v.psr >= 0x8000_0000 then SAPR else UAPR, 3)
  }

  lemma PointerBit(v: View)
    ensures Apr(v, false) % 2 == Rd(v.mem, PointerByte(v)) % 2
  {
    hide Rd, Lane;
    var f, a := v.cfg.fold, DATA_CMMU + if v.psr >= 0x8000_0000 then SAPR else UAPR;
    BigFour(Rd(v.mem, f(a)), Rd(v.mem, Lane(f, a, 1)), Rd(v.mem, Lane(f, a, 2)), Rd(v.mem, Lane(f, a, 3)));
  }

  /** A byte stored anywhere switches translation on or off exactly if it is that
      byte and has the other bit. */
  lemma PointerBitKept(v: View, c: int, b: u8)
    ensures Apr(v.(mem := v.mem[c := b]), false) % 2 == Apr(v, false) % 2 <==>
      c != PointerByte(v) || b % 2 == Apr(v, false) % 2
  {
    hide Apr, Lane;
    PointerBit(v);
    PointerBit(v.(mem := v.mem[c := b]));
  }

  /** No byte but the last switches translation on or off when it is stored. */
  predicate KeepsPointer(v: View, t: Tlb, va: u32, src: seq<u8>) {
    forall a: u32 :: va <= a && a + 1 < va + |src| && v.cfg.fold(Place(v, t, a)) == PointerByte(v) ==>
      src[a - va] % 2 == Apr(v, false) % 2
  }

  /** Memory after each byte has been stored where its address is mapped. */
  function Landed(v: View, t: Tlb, m: Store, va: u32, src: seq<u8>): Store
    requires va + |src| <= TWO32
    decreases |src|
  {
    if src == [] then m else
      var m' := W8(v.cfg.fold, m, Place(v, t, va), src[0]);
      if |src| == 1 then m' else Landed(v, t, m', va + 1, src[1..])
  }

  function BytesAt(v: View, t: Tlb, va: u32, n: nat): (b: seq<u8>)
    requires va + n <= TWO32
    ensures |b| == n
    decreases n
  {
    if n == 0 then [] else
      var b := R8(v.cfg.fold, v.mem, Place(v, t, va));
      if n == 1 then [b] else [b] + BytesAt(v, t, va + 1, n - 1)
  }

  lemma ResidentHead(v: View, t: Tlb, va: u32, len: nat)
    requires len > 0 && UserBuffer(va, len) && BufferResident(v, t, va, len)
    ensures Resident(v, t, Vpn(va))
    ensures len > 1 ==> BufferResident(v, t, va + 1, len - 1)
  {
    hide Resident;
  }

  /** What residency of a page depends on. */
  lemma PageNowSame(v: View, w: View, t: Tlb, vpn: VPN)
    requires Apr(v, false) % 2 == Apr(w, false) % 2
    ensures PageNow(v, t, vpn) == PageNow(w, t, vpn)
  {
  }

  /** Into a resident buffer every byte is stored, each where its address is
      mapped, and nothing else changes. */
  lemma {:induction false} PutResident(v: View, m: Store, t: Tlb, va: u32, src: seq<u8>)
    requires UserMode(v) && !v.fault.pending && UserBuffer(va, |src|)
    requires BufferResident(v, t, va, |src|) && KeepsPointer(v, t, va, src)
    requires Apr(v.(mem := m), false) % 2 == Apr(v, false) % 2
    ensures PutBytes(v.(mem := m), t, va, src) == Moved(|src|, v.(mem := Landed(v, t, m, va, src)), t)
    decreases |src|
  {
    hide Translate, PageNow, Apr, BufferResident, At, PointerByte;
    if src == [] {
    } else {
      var w := v.(mem := m);
      ResidentHead(v, t, va, |src|);
      PageNowSame(v, w, t, Vpn(va));
      ResidentTranslates(w, t, va);
      assert Cleared(w) == w;
      var c := v.cfg.fold(Place(v, t, va));
      assert |src| > 1 && c == PointerByte(v) ==> src[0] % 2 == Apr(v, false) % 2;
      PointerByteSame(v, m);
      PointerBitKept(w, c, src[0]);
      var m' := W8(v.cfg.fold, m, Place(v, t, va), src[0]);
      assert w.(mem := m') == v.(mem := m');
      if |src| > 1 {
        KeepsPointerTail(v, t, va, src);
        PutResident(v, m', t, va + 1, src[1..]);
      }
    }
  }

  lemma PointerByteSame(v: View, m: Store)
    ensures PointerByte(v.(mem := m)) == PointerByte(v)
  {
  }

  lemma KeepsPointerTail(v: View, t: Tlb, va: u32, src: seq<u8>)
    requires src != [] && va + |src| < TWO32 && KeepsPointer(v, t, va, src)
    ensures KeepsPointer(v, t, va + 1, src[1..])
  {
    hide Apr, Place, PointerByte;
    forall a: u32 | va + 1 <= a && a + 1 < va + |src| && v.cfg.fold(Place(v, t, a)) == PointerByte(v)
      ensures src[1..][a - (va + 1)] % 2 == Apr(v, false) % 2
    {
      assert src[1..][a - (va + 1)] == src[a - va];
    }
  }

  /** A page mapped onto the unit's registers: the first byte switches translation
      off, and the second lands at the same physical address as it has virtual. */
  lemma PointerSwitchExample(v: View, t: Tlb)
    requires UserMode(v) && !v.fault.pending && v.cfg.fold == FoldOf(false) && v.psr < 0x8000_0000
    requires Apr(v, false) % 2 == 1 && PageNow(v, t, 1) == DATA_CMMU
    ensures var r := PutBytes(v, t, 0x1207, [0, 65]);
      r.n == 2 && Rd(r.v.mem, 0x1208) == 65 && Rd(r.v.mem, DATA_CMMU + 0x208) == Rd(v.mem, DATA_CMMU + 0x208)
  {
    hide Translate, Apr, Lookup;
    ResidentTranslates(v, t, 0x1207);
    assert Cleared(v) == v;
    var w := v.(mem := v.mem[DATA_CMMU + 0x207 := 0]);
    PointerBitKept(v, DATA_CMMU + 0x207, 0);
    assert Cleared(w) == w && Apr(w, false) % 2 == 0;
    ResidentTranslates(w, t, 0x1208);
    assert [0, 65][1..] == [65] && [65][1..] == [];
    var z := w.(mem := w.mem[0x1208 := 65]);
    assert PutBytes(z, t, 0x1209, []) == Moved(0, z, t);
    assert PutBytes(w, t, 0x1208, [65]) == Moved(1, z, t);
  }

  lemma {:induction false} FetchResident(v: View, t: Tlb, va: u32, n: nat)
    requires UserMode(v) && UserBuffer(va, n) && BufferResident(v, t, va, n)
    ensures FetchBytes(v, t, va, n) == Fetched(BytesAt(v, t, va, n), v, t)
    decreases n
  {
    hide Translate, PageNow, BufferResident, At, Resident, R8;
    if n == 0 {
    } else {
      ResidentHead(v, t, va, n);
      ResidentTranslates(v, t, va);
      if n > 1 { FetchResident(v, t, va + 1, n - 1); }
    }
  }

  /** Two bytes of a buffer never share a place in memory. */
  predicate Unaliased(v: View, t: Tlb, va: u32, len: nat) {
    forall a: u32, b: u32 :: va <= a < b < va + len ==> v.cfg.fold(Place(v, t, a)) != v.cfg.fold(Place(v, t, b))
  }

  lemma {:induction false} LandedFrame(v: View, t: Tlb, m: Store, va: u32, src: seq<u8>, c: int)
    requires va + |src| <= TWO32
    requires forall a: u32 :: va <= a < va + |src| ==> v.cfg.fold(Place(v, t, a)) != c
    ensures Rd(Landed(v, t, m, va, src), c) == Rd(m, c)
    decreases |src|
  {
    hide Place;
    if |src| <= 1 {
    } else {
      LandedFrame(v, t, W8(v.cfg.fold, m, Place(v, t, va), src[0]), va + 1, src[1..], c);
    }
  }

  /** Each stored byte reads back at its own address. */
  lemma {:induction false} LandedReads(v: View, t: Tlb, m: Store, va: u32, src: seq<u8>, i: nat)
    requires va + |src| <= TWO32 && i < |src| && Unaliased(v, t, va, |src|)
    ensures Rd(Landed(v, t, m, va, src), v.cfg.fold(Place(v, t, va + i))) == src[i]
    decreases |src|
  {
    hide Place;
    var m' := W8(v.cfg.fold, m, Place(v, t, va), src[0]);
    if |src| == 1 {
    } else {
      if i == 0 {
        LandedFrame(v, t, m', va + 1, src[1..], v.cfg.fold(Place(v, t, va)));
      } else {
        LandedReads(v, t, m', va + 1, src[1..], i - 1);
      }
    }
  }

  // --- exactly when every byte arrives --------------------------------------------------

  ghost predicate Delivers(v: View, t: Tlb, va: u32, src: seq<u8>)
    requires va + |src| <= TWO32
  {
    PutBytes(v, t, va, src) == Moved(|src|, v.(mem := Landed(v, t, v.mem, va, src)), t)
  }

  /** No two bytes of a buffer share a place, and no byte's place is where an address
      of the buffer would be without translation. */
  predicate Apart(v: View, t: Tlb, va: u32, len: nat) {
    Unaliased(v, t, va, len) &&
    forall a: u32, b: u32 :: va <= a < va + len && va <= b < va + len ==> v.cfg.fold(a) != v.cfg.fold(Place(v, t, b))
  }

  lemma OffTranslates(v: View, t: Tlb, va: u32)
    requires UserMode(v) && va < KOFF && Apr(v, false) % 2 == 0
    ensures Translate(v, t, va, false) == Ans(va, v, t)
  {
    hide Apr, Lookup, WalkFb;
  }

  /** With translation off bytes go to their own addresses, and leave it off. */
  lemma {:induction false} OffKeeps(w: View, t: Tlb, va: u32, src: seq<u8>, c: int)
    requires UserMode(w) && !w.fault.pending && UserBuffer(va, |src|) && Apr(w, false) % 2 == 0
    requires forall a: u32 :: va <= a < va + |src| ==> w.cfg.fold(a) != c && w.cfg.fold(a) != PointerByte(w)
    ensures Rd(PutBytes(w, t, va, src).v.mem, c) == Rd(w.mem, c)
    decreases |src|
  {
    hide Translate, Apr, PointerByte;
    if src == [] {
    } else {
      OffTranslates(w, t, va);
      assert Cleared(w) == w;
      var w1 := w.(mem := w.mem[w.cfg.fold(va) := src[0]]);
      PointerBitKept(w, w.cfg.fold(va), src[0]);
      PointerByteSame(w, w1.mem);
      if |src| > 1 && va != 0 { OffKeeps(w1, t, va + 1, src[1..], c); }
    }
  }

  /** A zero stored on the valid bit, k bytes in: the byte behind it never gets to its
      place. */
  lemma {:induction false} Diverts(v: View, m: Store, t: Tlb, va: u32, src: seq<u8>, k: nat)
    requires UserMode(v) && !v.fault.pending && UserBuffer(va, |src|) && BufferResident(v, t, va, |src|)
    requires Apart(v, t, va, |src|) && k + 1 < |src| && src[k] == 0
    requires v.cfg.fold(Place(v, t, va + k)) == PointerByte(v)
    requires Apr(v, false) % 2 == 1 && Apr(v.(mem := m), false) % 2 == 1
    ensures var c := v.cfg.fold(Place(v, t, va + k + 1));
      Rd(PutBytes(v.(mem := m), t, va, src).v.mem, c) == Rd(m, c)
    decreases |src|
  {
    hide PageNow, Apr, BufferResident, At, PointerByte, PutBytes, UserMode, Place;
    var f, c := v.cfg.fold, v.cfg.fold(Place(v, t, va + k + 1));
    var p := f(Place(v, t, va));
    var m1 := m[p := src[0]];
    PutOne(v, m, t, va, src);
    PointerByteSame(v, m);
    PointerByteSame(v, m1);
    PointerBitKept(v.(mem := m), p, src[0]);
    assert v.(mem := m).(mem := m1) == v.(mem := m1);
    assert p != c;
    if k == 0 {
      UserModeStays(v, m1);
      forall a: u32 | va + 1 <= a < va + |src| ensures f(a) != c && f(a) != PointerByte(v.(mem := m1)) { }
      OffKeeps(v.(mem := m1), t, va + 1, src[1..], c);
    } else {
      assert p != PointerByte(v);
      ApartTail(v, t, va, |src|);
      ResidentHead(v, t, va, |src|);
      Diverts(v, m1, t, va + 1, src[1..], k - 1);
    }
  }

  lemma UserModeStays(v: View, m: Store)
    ensures UserMode(v.(mem := m)) == UserMode(v)
  {
  }

  /** The first of several bytes lands, and the others follow. */
  lemma PutOne(v: View, m: Store, t: Tlb, va: u32, src: seq<u8>)
    requires UserMode(v) && !v.fault.pending && UserBuffer(va, |src|) && |src| > 1
    requires BufferResident(v, t, va, |src|) && Apr(v.(mem := m), false) % 2 == Apr(v, false) % 2
    ensures PutBytes(v.(mem := m), t, va, src).v ==
      PutBytes(v.(mem := m[v.cfg.fold(Place(v, t, va)) := src[0]]), t, va + 1, src[1..]).v
  {
    hide Translate, PageNow, Apr, BufferResident, At;
    var w := v.(mem := m);
    ResidentHead(v, t, va, |src|);
    PageNowSame(v, w, t, Vpn(va));
    ResidentTranslates(w, t, va);
    assert Cleared(w) == w;
    assert w.(mem := m[v.cfg.fold(Place(v, t, va)) := src[0]]) == v.(mem := m[v.cfg.fold(Place(v, t, va)) := src[0]]);
  }

  lemma ApartTail(v: View, t: Tlb, va: u32, len: nat)
    requires len > 1 && UserBuffer(va, len) && Apart(v, t, va, len)
    ensures Apart(v, t, va + 1, len - 1)
  {
    hide Place;
  }

  /** With translation off every place is its own address. */
  lemma ApartMeansOn(v: View, t: Tlb, va: u32, len: nat)
    requires len > 0 && UserBuffer(va, len) && Apart(v, t, va, len)
    ensures Apr(v, false) % 2 == 1
  {
    hide Apr, Unaliased;
    assert v.cfg.fold(va) != v.cfg.fold(Place(v, t, va));
    assert Apr(v, false) % 2 == 0 ==> Place(v, t, va) == va;
  }

  /** Every string of bytes that fills the buffer is delivered if and only if no byte
      of the buffer before the last lies on the valid bit. */
  lemma DeliversAllIff(v: View, t: Tlb, va: u32, n: nat)
    requires UserMode(v) && !v.fault.pending && UserBuffer(va, n)
    requires BufferResident(v, t, va, n) && Apart(v, t, va, n)
    ensures (forall src: seq<u8> :: |src| == n ==> Delivers(v, t, va, src)) <==>
      forall a: u32 :: va <= a && a + 1 < va + n ==> v.cfg.fold(Place(v, t, a)) != PointerByte(v)
  {
    hide UserMode, BufferResident, Place, PutBytes, Landed, Apr, PointerByte, Apart;
    if forall a: u32 :: va <= a && a + 1 < va + n ==> v.cfg.fold(Place(v, t, a)) != PointerByte(v) {
      forall src: seq<u8> | |src| == n ensures Delivers(v, t, va, src) {
        assert v.(mem := v.mem) == v;
        PutResident(v, v.mem, t, va, src);
      }
    } else {
      var a: u32 :| va <= a && a + 1 < va + n && v.cfg.fold(Place(v, t, a)) == PointerByte(v);
      LostString(v, t, va, n, a - va);
    }
  }

  lemma LostString(v: View, t: Tlb, va: u32, n: nat, k: nat)
    requires UserMode(v) && !v.fault.pending && UserBuffer(va, n) && k + 1 < n
    requires BufferResident(v, t, va, n) && Apart(v, t, va, n)
    requires v.cfg.fold(Place(v, t, va + k)) == PointerByte(v)
    ensures exists src: seq<u8> :: |src| == n && !Delivers(v, t, va, src)
  {
    hide UserMode, BufferResident, Place, PutBytes, Landed, Apr, PointerByte;
    var c := v.cfg.fold(Place(v, t, va + k + 1));
    var b: u8 := if Rd(v.mem, c) == 0 then 1 else 0;
    var src: seq<u8> := seq(n, i => if i == k + 1 then b else 0);
    ApartMeansOn(v, t, va, n);
    assert v.(mem := v.mem) == v;
    Diverts(v, v.mem, t, va, src, k);
    LandedReads(v, t, v.mem, va, src, k + 1);
    assert !Delivers(v, t, va, src);
  }

  // --- the calls ---------------------------------------------------------------------------

  /** The machine, the console and the result register. */
  datatype Session = Session(v: View, t: Tlb, con: Reader, sent: seq<u8>, result: u32)

  datatype Call = Read(buf: u32, len: u32) | Write(buf: u32, len: u32, gone: bool)

  /** Bytes a call may move, at most. */
  function Span(c: Call): u32 {
    match c
    case Read(_, len) => Min(len, READ_MAX)
    case Write(_, len, _) => Min(len, WRITE_MAX)
  }

  function Check(s: Session, c: Call, tpc: u32): Checked { UbufFault(s.v, s.t, c.buf, Span(c), c.Read?, tpc) }

  /** What a read takes from the console and what that echoes. */
  function Input(con: Reader, n: nat): (b: seq<u8>)
    ensures |b| <= n
  {
    if n == 0 then [] else ReadOut(con, n, LINE_CAP)
  }

  function InputLeft(con: Reader, n: nat): Reader { if n == 0 then con else ReadState(con, n, LINE_CAP) }

  function InputEcho(con: Reader, n: nat): seq<u8> {
    if n > 0 && con.left == [] then CookEcho(con.input, LINE_CAP) else []
  }

  /** One attempt at a call; tpc is the address of its trap instruction. */
  function Serve(s: Session, c: Call, tpc: u32): Session {
    var f := Check(s, c, tpc);
    if f.faulted then s.(v := f.v, t := f.t) else Finish(s.(v := f.v, t := f.t), c, tpc)
  }

  function Finish(s: Session, c: Call, tpc: u32): Session {
    match c
    case Read(buf, len) =>
      var w := UserWrite(s.v, s.t, buf, Input(s.con, Span(c)));
      Session(w.v.(pc := Wrap(tpc + 8)), w.t, InputLeft(s.con, Span(c)), s.sent + InputEcho(s.con, Span(c)), Wrap(w.n))
    case Write(buf, len, gone) =>
      var g := FetchBytes(s.v, s.t, buf, Span(c));
      Session(g.v.(pc := Wrap(tpc + 8)), g.t, s.con, s.sent + (if gone then [] else Onlcr(g.bytes)), len)
  }

  /** What the claims below take for granted: a process's own buffer. */
  predicate Ready(s: Session, c: Call) {
    UserMode(s.v) && !s.v.fault.pending && UserBuffer(c.buf, Span(c))
  }

  /** An attempt that faults takes no input, sends nothing, writes nothing and
      leaves the program counter at the call. */
  lemma FaultTakesNothing(s: Session, c: Call, tpc: u32)
    requires Ready(s, c) && Check(s, c, tpc).faulted
    ensures var r := Serve(s, c, tpc);
      FaultLeft(s.v, r.v, c.buf, Span(c), c.Read?, tpc) &&
      r.con == s.con && r.sent == s.sent && r.result == s.result && r.v.mem == s.v.mem && r.v.pc == tpc
  {
    hide UbufFault, UserMode;
    PrefaultExact(s.v, s.t, c.buf, Span(c), c.Read?, tpc);
  }

  /** A read completed in one go: all of its input in the caller's buffer. */
  function Delivered(s: Session, c: Call, t: Tlb, tpc: u32): Session
    requires UserBuffer(c.buf, Span(c))
  {
    var got := Input(s.con, Span(c));
    Session(s.v.(mem := Landed(s.v, t, s.v.mem, c.buf, got), pc := Wrap(tpc + 8)), t,
            InputLeft(s.con, Span(c)), s.sent + InputEcho(s.con, Span(c)), |got|)
  }

  /** A read that completes stores every byte it took from the console. */
  lemma ReadDelivers(s: Session, c: Call, tpc: u32)
    requires Ready(s, c) && c.Read? && !Check(s, c, tpc).faulted
    requires KeepsPointer(s.v, Check(s, c, tpc).t, c.buf, Input(s.con, Span(c)))
    ensures var t' := Check(s, c, tpc).t;
      Serve(s, c, tpc) == Delivered(s, c, t', tpc)
  {
    hide UbufFault, UserMode, InputLeft, InputEcho, Input, KeepsPointer, BufferResident, PutBytes, Landed, Wrap;
    var n, f := Span(c), Check(s, c, tpc);
    PrefaultExact(s.v, s.t, c.buf, n, true, tpc);
    var got := Input(s.con, n);
    Shorter(s.v, f.t, c.buf, n, |got|);
    PutResident(s.v, s.v.mem, f.t, c.buf, got);
    assert s.v.(mem := s.v.mem) == s.v;
    WrapSmall(|got|);
  }

  lemma WrapSmall(n: nat)
    requires n < TWO32
    ensures Wrap(n) == n
  {
  }

  /** A shorter buffer at the same address. */
  lemma Shorter(v: View, t: Tlb, va: u32, n: nat, k: nat)
    requires k <= n && BufferResident(v, t, va, n)
    ensures BufferResident(v, t, va, k)
  {
    hide Resident;
  }

  /** What an attempt made the terminal show, newlines read back. */
  function Shown(was: Session, now: Session): seq<u8>
    requires |was.sent| <= |now.sent|
  {
    FromCrlf(now.sent[|was.sent|..])
  }

  /** A write that completes shows the client, if it is there, the first 2^20 bytes
      of the buffer; as many as the call then reports exactly when no more were
      asked for. */
  lemma WriteSends(s: Session, c: Call, tpc: u32)
    requires Ready(s, c) && c.Write? && !Check(s, c, tpc).faulted
    ensures var t' := Check(s, c, tpc).t;
      Serve(s, c, tpc) ==
        Session(s.v.(pc := Wrap(tpc + 8)), t', s.con,
                s.sent + (if c.gone then [] else Onlcr(BytesAt(s.v, t', c.buf, Span(c)))), c.len)
    ensures !c.gone ==> Shown(s, Serve(s, c, tpc)) == BytesAt(s.v, Check(s, c, tpc).t, c.buf, Span(c))
    ensures !c.gone ==> (|Shown(s, Serve(s, c, tpc))| == Serve(s, c, tpc).result <==> c.len <= WRITE_MAX)
  {
    hide UbufFault, UserMode, BufferResident, FetchBytes, BytesAt, Onlcr, FromCrlf, Wrap;
    var t' := Check(s, c, tpc).t;
    PrefaultExact(s.v, s.t, c.buf, Span(c), false, tpc);
    FetchResident(s.v, t', c.buf, Span(c));
    var b := BytesAt(s.v, t', c.buf, Span(c));
    OnlcrInvertible(b);
    assert (s.sent + Onlcr(b))[|s.sent|..] == Onlcr(b);
  }

  /** With the area pointer's valid bit off every page but the first is there. */
  lemma {:induction false} TouchUnmapped(v: View, t: Tlb, p: Frame, end: Frame)
    requires UserMode(v) && !v.fault.pending && Apr(v, false) % 2 == 0 && 0 < p <= end <= KOFF
    ensures Touch(v, t, p, end) == Touched(None, v, t)
    decreases end - p
  {
    hide Apr, WalkFb, Lookup, NextFrame;
    if p == end {
    } else {
      AprSame(v, Cleared(v));
      assert Cleared(v) == v;
      NextPage(p, end);
      TouchUnmapped(v, t, NextFrame(p), end);
    }
  }

  /** A write of 2^20 + 1 bytes reports that many and sends one less. */
  lemma LongWriteExample(s: Session, tpc: u32)
    requires UserMode(s.v) && !s.v.fault.pending && Apr(s.v, false) % 2 == 0
    ensures var r := Serve(s, Write(0x1000, 0x10_0001, false), tpc);
      r.result == 0x10_0001 && |s.sent| <= |r.sent| && |Shown(s, r)| == 0x10_0000
  {
    hide UserMode, Apr, Touch, FromCrlf, BytesAt, PageEnd, Serve;
    var c := Write(0x1000, 0x10_0001, false);
    BufferPages(0x1000, 0x10_0000);
    TouchUnmapped(s.v, s.t, PageBase(0x1000), PageEnd(0x1000, 0x10_0000));
    WriteSends(s, c, tpc);
  }

  // --- retries -----------------------------------------------------------------------------

  /** The kernel pages something in and the call runs again: the machine is
      whatever it has become, the console is as it was left. */
  function Retry(s: Session, c: Call, tpc: u32, later: seq<(View, Tlb)>): Session
    decreases |later|
  {
    var r := Serve(s, c, tpc);
    if !Check(s, c, tpc).faulted || later == [] then r
    else Retry(r.(v := later[0].0, t := later[0].1), c, tpc, later[1..])
  }

  /** Attempt i, had it been the only one. */
  function Attempt(s: Session, later: seq<(View, Tlb)>, i: nat): Session
    requires i <= |later|
  {
    if i == 0 then s else s.(v := later[i - 1].0, t := later[i - 1].1)
  }

  predicate AllReady(s: Session, c: Call, later: seq<(View, Tlb)>) {
    forall i :: 0 <= i <= |later| ==> Ready(Attempt(s, later, i), c)
  }

  /** Attempt i is the last, and as if it had been the only one. */
  ghost predicate Settles(s: Session, c: Call, tpc: u32, later: seq<(View, Tlb)>, i: nat)
    requires i <= |later|
  {
    Retry(s, c, tpc, later) == Serve(Attempt(s, later, i), c, tpc) &&
    (i < |later| ==> !Check(Attempt(s, later, i), c, tpc).faulted)
  }

  /** Any number of retries has the effect of the last attempt alone, with the
      console of the first: input is taken and output sent once. */
  lemma {:induction false} RetryOnce(s: Session, c: Call, tpc: u32, later: seq<(View, Tlb)>)
    requires AllReady(s, c, later)
    ensures exists i: nat :: i <= |later| && Settles(s, c, tpc, later, i)
    decreases |later|
  {
    hide Serve, Check, Ready;
    assert Ready(Attempt(s, later, 0), c);
    if Check(s, c, tpc).faulted && later != [] {
      FaultTakesNothing(s, c, tpc);
      var r := Serve(s, c, tpc).(v := later[0].0, t := later[0].1);
      forall j | 0 <= j <= |later[1..]| ensures Attempt(r, later[1..], j) == Attempt(s, later, j + 1) { }
      assert AllReady(r, c, later[1..]);
      RetryOnce(r, c, tpc, later[1..]);
      var j: nat :| j <= |later[1..]| && Settles(r, c, tpc, later[1..], j);
      assert Settles(s, c, tpc, later, j + 1);
    } else {
      assert Settles(s, c, tpc, later, 0);
    }
  }

  // --- the calls as they run ---------------------------------------------------------------

  lemma {:induction false} OnlcrAppend(x: seq<u8>, y: seq<u8>)
    ensures Onlcr(x + y) == Onlcr(x) + Onlcr(y)
    decreases |y|
  {
    hide Crlf, Onlcr;
    if y == [] {
      OnlcrNothing();
      assert x + y == x && Onlcr(x) + [] == Onlcr(x);
    } else {
      var z, b := y[..|y| - 1], y[|y| - 1];
      OnlcrAppend(x, z);
      OnlcrLast(z, b);
      OnlcrLast(x + z, b);
      assert z + [b] == y && (x + z) + [b] == x + y;
      assert Onlcr(x) + Onlcr(z) + Crlf(b) == Onlcr(x) + (Onlcr(z) + Crlf(b));
    }
  }

  lemma OnlcrLast(x: seq<u8>, b: u8)
    ensures Onlcr(x + [b]) == Onlcr(x) + Crlf(b)
  {
    assert (x + [b])[..|x|] == x;
  }

  class Services {
    const unit: Unit
    const con: Console
    var r2: u32

    constructor (unit: Unit, con: Console)
      requires unit.Valid() && con.Valid()
      ensures Valid() && this.unit == unit && this.con == con
    {
      this.unit, this.con, r2 := unit, con, 0;
    }

    ghost predicate Valid()
      reads this, unit, con, con.wire
    {
      unit.Valid() && con.Valid()
    }

    ghost function State(): Session
      requires Valid()
      reads this, unit, unit.dataBank, unit.codeBank, con, con.wire, con.line
    {
      Session(unit.V(), unit.T(), Reader(con.Left(), con.Input()), con.sent, r2)
    }

    /** Translate a data address with no fault pending from before. */
    method Look(va: u32) returns (pa: u32)
      requires unit.Valid()
      modifies unit`scratch, unit`fault, unit`misses, unit`missVa, unit`missPc, unit.dataBank, unit.codeBank
      ensures Ans(pa, unit.V(), unit.T()) == Mmu.Translate(Cleared(old(unit.V())), old(unit.T()), va, false)
    {
      hide Mmu.Translate;
      unit.fault := unit.fault.(pending := false);
      pa := unit.Translate(va, false);
    }

    /** Make a buffer resident, or leave a fault for its first missing page. */
    method Prefault(va: u32, len: u32, forWrite: bool, tpc: u32) returns (faulted: bool)
      requires unit.Valid()
      modifies unit`pc, unit`scratch, unit`fault, unit`misses, unit`missVa, unit`missPc, unit.dataBank, unit.codeBank
      ensures Resided(faulted, unit.V(), unit.T()) ==
        UbufFault(old(unit.V()), old(unit.T()), va, len, forWrite, tpc)
    {
      hide Mmu.Translate, PageEnd;
      if len == 0 { return false; }
      var save := unit.fault.pending;
      var p: Frame := PageBase(va);
      var end: Frame := PageEnd(va, len);
      while p != end
        invariant unit.Valid()
        invariant Touch(unit.V(), unit.T(), p, end) == Touch(old(unit.V()), old(unit.T()), PageBase(va), end)
        decreases Gap(p, end)
      {
        var pa := Look(p);
        if unit.fault.pending || pa == 0 {
          unit.fault := Fault(true, p, false, forWrite, 4, tpc);
          unit.pc := tpc;
          return true;
        }
        PagesLeft(p, end);
        p := NextFrame(p);
      }
      unit.fault := unit.fault.(pending := save);
      faulted := false;
    }

    /** Copy bytes into user memory up to the first that is not resident, the
        fault record untouched. */
    method UwriteMem(va: u32, src: seq<u8>) returns (n: nat)
      requires unit.Valid()
      modifies unit`mem, unit`scratch, unit`fault, unit`misses, unit`missVa, unit`missPc, unit.dataBank, unit.codeBank
      ensures n <= |src|
      ensures Moved(n, unit.V(), unit.T()) == UserWrite(old(unit.V()), old(unit.T()), va, src)
    {
      hide Mmu.Translate, W8, Wrap;
      var save := unit.fault;
      n := 0;
      var at: int := va;
      while n < |src|
        invariant unit.Valid() && n <= |src| && 0 <= at < TWO32
        invariant var r := PutBytes(unit.V(), unit.T(), at, src[n..]);
          PutBytes(old(unit.V()), old(unit.T()), va, src) == Moved(n + r.n, r.v, r.t)
      {
        var pa := Look(at);
        if unit.fault.pending || pa == 0 { break; }
        unit.mem := W8(unit.cfg.fold, unit.mem, pa, src[n]);
        assert src[n..][1..] == src[n + 1..];
        n := n + 1;
        at := Wrap(at + 1);
      }
      unit.fault := save;
    }

    /** Read a string for the emulator's own use, the fault record untouched. */
    method UreadStr(va: u32, n: nat) returns (b: seq<u8>)
      requires unit.Valid() && n > 0
      modifies unit`scratch, unit`fault, unit`misses, unit`missVa, unit`missPc, unit.dataBank, unit.codeBank
      ensures var r := PeekStr(old(unit.V()), old(unit.T()), va, n - 1);
        b == r.bytes && unit.V() == r.v.(fault := old(unit.fault)) && unit.T() == r.t
    {
      hide Mmu.Translate, R8, Wrap;
      var save := unit.fault;
      b := [];
      var at: int := va;
      while |b| + 1 < n
        invariant unit.Valid() && |b| < n && 0 <= at < TWO32 && unit.cfg == old(unit.cfg)
        invariant var r := PeekStr(unit.V(), unit.T(), at, n - 1 - |b|);
          PeekStr(old(unit.V()), old(unit.T()), va, n - 1) == Fetched(b + r.bytes, r.v, r.t)
        decreases n - |b|
      {
        var pa := Look(at);
        if unit.fault.pending || pa == 0 { break; }
        var x := R8(unit.cfg.fold, unit.mem, pa);
        if x == 0 { break; }
        ghost var r := PeekStr(unit.V(), unit.T(), Wrap(at + 1), n - 2 - |b|);
        assert b + ([x] + r.bytes) == b + [x] + r.bytes;
        b := b + [x];
        at := Wrap(at + 1);
      }
      assert b + [] == b;
      unit.fault := save;
    }

    /** Fetch a chunk of user memory. */
    method Fetch(va: u32, n: nat) returns (b: seq<u8>)
      requires unit.Valid() && n <= 4096
      modifies unit`scratch, unit`fault, unit`misses, unit`missVa, unit`missPc, unit.dataBank, unit.codeBank
      ensures Fetched(b, unit.V(), unit.T()) == FetchBytes(old(unit.V()), old(unit.T()), va, n)
    {
      hide Mmu.Translate, R8, Wrap, FetchBytes;
      FetchNone(unit.V(), unit.T(), va);
      b := [];
      var at: int := va;
      for i := 0 to n
        invariant unit.Valid() && |b| == i && 0 <= at < TWO32
        invariant unit.cfg == old(unit.cfg)
        invariant var r := FetchBytes(unit.V(), unit.T(), at, n - i);
          FetchBytes(old(unit.V()), old(unit.T()), va, n) == Fetched(b + r.bytes, r.v, r.t)
      {
        FetchStep(unit.V(), unit.T(), at, n - i, b);
        var pa := unit.Translate(at, false);
        b := b + [R8(unit.cfg.fold, unit.mem, pa)];
        at := Wrap(at + 1);
      }
      FetchNone(unit.V(), unit.T(), at);
      assert b + [] == b;
    }

    ghost function In(): Reader
      requires con.Valid()
      reads con, con.wire, con.line
    {
      Reader(con.Left(), con.Input())
    }

    /** Take a read's input; a read of nothing leaves the console alone. */
    method TakeInput(n: u32) returns (got: seq<u8>)
      requires con.Valid()
      modifies con, con.wire, con.line
      ensures con.Valid()
      ensures got == Input(old(In()), n)
      ensures In().left == InputLeft(old(In()), n).left
      ensures Safe(old(In()).input) ==> In() == InputLeft(old(In()), n) && Safe(In().input)
      ensures con.sent == old(con.sent) + InputEcho(old(In()), n)
    {
      hide Telnet.Decode, Cook, CookEcho, PairIsIac, Safe;
      got := [];
      if n > 0 {
        SafeKept(con.Input());
        got := con.SockRead(n);
      }
    }

    /** The state but for input still on the wire. */
    ghost predicate Reached(s: Session)
      requires Valid()
      reads this, unit, unit.dataBank, unit.codeBank, con, con.wire, con.line
    {
      unit.V() == s.v && unit.T() == s.t && con.Left() == s.con.left && con.sent == s.sent && r2 == s.result
    }

    method FinishRead(buf: u32, len: u32, tpc: u32)
      requires Valid()
      modifies this, unit`pc, unit`mem, unit`scratch, unit`fault, unit`misses, unit`missVa, unit`missPc
      modifies unit.dataBank, unit.codeBank, con, con.wire, con.line
      ensures Valid() && Reached(Finish(old(State()), Read(buf, len), tpc))
      ensures Safe(old(In()).input) ==>
        In() == Finish(old(State()), Read(buf, len), tpc).con && Safe(In().input)
    {
      hide Telnet.Decode, UserWrite, Input, InputLeft, InputEcho, Safe, Wrap;
      var got := TakeInput(if len > 4096 then 4096 else len);
      var k := UwriteMem(buf, got);
      WrapSmall(k);
      r2 := k;
      unit.pc := Wrap(tpc + 8);
    }

    /** Service a read of the console; tpc is the call's address. */
    method ReadCall(buf: u32, len: u32, tpc: u32)
      requires Valid()
      modifies this, unit, unit.dataBank, unit.codeBank, con, con.wire, con.line
      ensures Valid() && Reached(Serve(old(State()), Read(buf, len), tpc))
      ensures Safe(old(In()).input) ==>
        In() == Serve(old(State()), Read(buf, len), tpc).con && Safe(In().input)
    {
      hide Telnet.Decode, UbufFault, Finish, Safe;
      var faulted := Prefault(buf, if len > 4096 then 4096 else len, true, tpc);
      if !faulted { FinishRead(buf, len, tpc); }
    }

    method SendChunk(va: u32, n: nat, ghost done: seq<u8>, ghost sent: seq<u8>) returns (tmp: seq<u8>)
      requires Valid() && n <= 4096 && con.sent == sent + if con.wire.eof then [] else Onlcr(done)
      modifies con`sent, con.outBuf, unit`scratch, unit`fault, unit`misses, unit`missVa, unit`missPc
      modifies unit.dataBank, unit.codeBank
      ensures Valid() && con.sent == sent + if con.wire.eof then [] else Onlcr(done + tmp)
      ensures Fetched(tmp, unit.V(), unit.T()) == FetchBytes(old(unit.V()), old(unit.T()), va, n)
    {
      hide FetchBytes, Onlcr;
      tmp := Fetch(va, n);
      con.SockWrite(tmp);
      OnlcrAppend(done, tmp);
    }

    /** Send a buffer, a chunk at a time. */
    method SendBuffer(va: u32, total: u32)
      requires Valid()
      modifies con`sent, con.outBuf, unit`scratch, unit`fault, unit`misses, unit`missVa, unit`missPc
      modifies unit.dataBank, unit.codeBank
      ensures Valid()
      ensures var g := FetchBytes(old(unit.V()), old(unit.T()), va, total);
        unit.V() == g.v && unit.T() == g.t &&
        con.sent == old(con.sent) + if con.wire.eof then [] else Onlcr(g.bytes)
    {
      hide FetchBytes, Onlcr, Wrap;
      var off: int := 0;
      ghost var done: seq<u8> := [];
      FetchNone(unit.V(), unit.T(), va);
      while off < total
        invariant Valid() && 0 <= off <= total
        invariant var r := FetchBytes(unit.V(), unit.T(), Wrap(va + off), total - off);
          FetchBytes(old(unit.V()), old(unit.T()), va, total) == Fetched(done + r.bytes, r.v, r.t)
        invariant con.sent == old(con.sent) + if con.wire.eof then [] else Onlcr(done)
      {
        var chunk := if total - off > 4096 then 4096 else total - off;
        FetchSplit(unit.V(), unit.T(), Wrap(va + off), chunk, total - off - chunk);
        var tmp := SendChunk(Wrap(va + off), chunk, done, old(con.sent));
        WrapAdd(va + off, chunk);
        done := done + tmp;
        off := off + chunk;
      }
      FetchNone(unit.V(), unit.T(), Wrap(va + off));
      assert done + [] == done;
    }

    method FinishWrite(buf: u32, len: u32, tpc: u32)
      requires Valid()
      modifies this, unit`pc, unit`scratch, unit`fault, unit`misses, unit`missVa, unit`missPc, unit.dataBank
      modifies unit.codeBank, con`sent, con.outBuf
      ensures Valid() && State() == Finish(old(State()), Write(buf, len, con.wire.eof), tpc)
    {
      hide Telnet.Decode, FetchBytes, Onlcr, Wrap;
      SendBuffer(buf, if len < 0x10_0000 then len else 0x10_0000);
      r2 := len;
      unit.pc := Wrap(tpc + 8);
    }

    /** Service a write to the console. */
    method WriteCall(buf: u32, len: u32, tpc: u32)
      requires Valid()
      modifies this, unit, unit.dataBank, unit.codeBank, con`sent, con.outBuf
      ensures Valid()
      ensures State() == Serve(old(State()), Write(buf, len, con.wire.eof), tpc)
    {
      hide Telnet.Decode, UbufFault, Finish;
      var faulted := Prefault(buf, if len < 0x10_0000 then len else 0x10_0000, false, tpc);
      if !faulted { FinishWrite(buf, len, tpc); }
    }
  }

  lemma SafeKept(d: seq<u8>)
    ensures Safe(d) ==> !PairIsIac(d) && Safe(Cook(d, LINE_CAP).rest)
  {
    if Safe(d) { SafeAfter(d); }
  }

  lemma FetchNone(v: View, t: Tlb, va: u32)
    ensures FetchBytes(v, t, va, 0) == Fetched([], v, t)
    ensures Wrap(va) == va && Onlcr([]) == []
  {
  }

  lemma FetchStep(v: View, t: Tlb, va: u32, n: nat, b: seq<u8>)
    requires n > 0
    ensures var a := Translate(v, t, va, false);
      var x := R8(v.cfg.fold, a.v.mem, a.pa);
      var r := FetchBytes(a.v, a.t, Wrap(va + 1), n - 1);
      var all := FetchBytes(v, t, va, n);
      all.bytes == [x] + r.bytes && all.v == r.v && all.t == r.t && b + all.bytes == b + [x] + r.bytes
  {
  }

  lemma {:induction false} FetchSplit(v: View, t: Tlb, va: u32, m: nat, n: nat)
    ensures var x := FetchBytes(v, t, va, m);
      var y := FetchBytes(x.v, x.t, Wrap(va + m), n);
      FetchBytes(v, t, va, m + n) == Fetched(x.bytes + y.bytes, y.v, y.t)
    decreases m
  {
    hide Translate, R8, Wrap;
    if m == 0 {
      FetchNone(v, t, va);
    } else {
      var a := Translate(v, t, va, false);
      FetchSplit(a.v, a.t, Wrap(va + 1), m - 1, n);
      WrapAdd(va + 1, m - 1);
      FetchStep(v, t, va, m, []);
      FetchStep(v, t, va, m + n, []);
    }
  }
}
