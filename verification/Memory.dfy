/** Physical memory.  `Store` is the flat byte store everything else is stated
    over; `PagedMemory` is the sparse page table of nx88.h that implements it. */
module Memory {
  import opened Words

  type Store = map<int, u8>

  /** A byte of a store; what was never written reads as zero. */
  function Rd(m: Store, a: int): u8 { if a in m then m[a] else 0 }

  /** Which byte of RAM an address names.  Accessors take the folding as a
      parameter: they rely only on what `PageFold` says of it. */
  type Fold = u32 -> u32

  /** Folding is idempotent, keeps the page offset and moves whole pages. */
  ghost predicate PageFold(f: Fold) {
    && (forall a: u32 :: f(f(a)) == f(a))
    && (forall a: u32 :: f(a) % 4096 == a % 4096)
    && (forall a: u32, b: u32 :: a / 4096 == b / 4096 ==> f(a) - a == f(b) - b)
  }

  const VV_WINDOW: u32 := 0xF900_0000
  const VV_STRIDE: u32 := 0x2000
  const VV_TEMPLATE: u32 := 0xC001_4000

  /** The folding the emulator uses: under the real-memory model the
      interleaved view folds onto node-local RAM, and the 64 per-node windows
      fold onto one template. */
  function Cphys(realmm: bool, a: u32): u32 {
    if realmm && 0x8000_0000 <= a < 0xC000_0000 then a - 0x8000_0000
    else if VV_WINDOW <= a < VV_WINDOW + 64 * VV_STRIDE then
      (if realmm then VV_TEMPLATE - 0xC000_0000 else VV_TEMPLATE) + (a - VV_WINDOW) % VV_STRIDE
    else a
  }

  function FoldOf(realmm: bool): Fold { a => Cphys(realmm, a) }

  lemma CphysKeepsOffset(realmm: bool, a: u32)
    ensures Cphys(realmm, a) % 4096 == a % 4096
  {
  }

  lemma CphysIdempotent(realmm: bool, a: u32)
    ensures Cphys(realmm, Cphys(realmm, a)) == Cphys(realmm, a)
  {
  }

  /** The distance an address moves depends only on its page. */
  lemma CphysMovesPages(realmm: bool, a: u32, b: u32)
    requires a / 4096 == b / 4096
    ensures Cphys(realmm, a) - a == Cphys(realmm, b) - b
  {
    if VV_WINDOW <= a < VV_WINDOW + 64 * VV_STRIDE {
      SameStride(a - VV_WINDOW, b - VV_WINDOW);
    }
  }

  lemma SameStride(x: nat, y: nat)
    requires x / 4096 == y / 4096
    ensures x % 8192 - x == y % 8192 - y
  {
    assert x / 8192 == x / 4096 / 2 && y / 8192 == y / 4096 / 2;
  }

  lemma CphysIsPageFold(realmm: bool)
    ensures PageFold(FoldOf(realmm))
  {
    hide Cphys;
    var f := FoldOf(realmm);
    forall a: u32 ensures f(f(a)) == f(a) && f(a) % 4096 == a % 4096 {
      CphysIdempotent(realmm, a);
      CphysKeepsOffset(realmm, a);
    }
    forall a: u32, b: u32 | a / 4096 == b / 4096 ensures f(a) - a == f(b) - b {
      CphysMovesPages(realmm, a, b);
    }
  }

  function Be16(b0: u8, b1: u8): u16 { b0 * 0x100 + b1 }

  /** A byte string as a big-endian number. */
  function Big(s: seq<u8>): nat { if s == [] then 0 else 0x100 * Big(s[..|s| - 1]) + s[|s| - 1] }

  lemma BigFour(b0: u8, b1: u8, b2: u8, b3: u8)
    ensures Big([b0, b1, b2, b3]) == b0 * 0x100_0000 + b1 * 0x1_0000 + b2 * 0x100 + b3
  {
    assert [b0, b1, b2, b3][..3] == [b0, b1, b2] && [b0, b1, b2][..2] == [b0, b1] && [b0, b1][..1] == [b0];
    assert Big([b0]) == b0 && Big([b0, b1]) == 0x100 * Big([b0]) + b1;
  }

  function Be32(b0: u8, b1: u8, b2: u8, b3: u8): u32 {
    BigFour(b0, b1, b2, b3);
    Big([b0, b1, b2, b3])
  }

  /** Byte i of a big-endian word. */
  function Byte(v: u32, i: int): u8
    requires 0 <= i < 4
  {
    if i == 0 then v / 0x100_0000 else if i == 1 then v / 0x1_0000 % 0x100
    else if i == 2 then v / 0x100 % 0x100 else v % 0x100
  }

  /** The byte of RAM behind byte i of an access at a. */
  function Lane(f: Fold, a: u32, i: nat): u32 { f(Ahead(a, i)) }

  /** The address i bytes on, around the end of the address space. */
  function Ahead(a: u32, i: nat): u32 { if a + i < TWO32 then a + i else Wrap(a + i) }

  function R8(f: Fold, m: Store, a: u32): u8 { Rd(m, f(a)) }

  function R16(f: Fold, m: Store, a: u32): u16 {
    Be16(Rd(m, f(a)), Rd(m, Lane(f, a, 1)))
  }

  function R32(f: Fold, m: Store, a: u32): u32 {
    Be32(Rd(m, f(a)), Rd(m, Lane(f, a, 1)), Rd(m, Lane(f, a, 2)), Rd(m, Lane(f, a, 3)))
  }

  function W8(f: Fold, m: Store, a: u32, v: u8): Store { m[f(a) := v] }

  function W16(f: Fold, m: Store, a: u32, v: u16): Store {
    m[f(a) := v / 0x100][Lane(f, a, 1) := v % 0x100]
  }

  function W32(f: Fold, m: Store, a: u32, v: u32): Store {
    m[f(a) := Byte(v, 0)][Lane(f, a, 1) := Byte(v, 1)][Lane(f, a, 2) := Byte(v, 2)][Lane(f, a, 3) := Byte(v, 3)]
  }

  // --- what aliasing does ------------------------------------------------

  /** Two addresses name one byte of RAM: they are the same, one is the other's view,
      or they are views of the same byte. */
  predicate Aliases(realmm: bool, a: u32, b: u32) {
    a == b || Views(realmm, a, b) || Views(realmm, b, a) ||
    (InWindow(a) && InWindow(b) && (a - VV_WINDOW) % VV_STRIDE == (b - VV_WINDOW) % VV_STRIDE) ||
    (Interleaved(realmm, a) && InWindow(b) && Views(realmm, b, a - 0x8000_0000)) ||
    (Interleaved(realmm, b) && InWindow(a) && Views(realmm, a, b - 0x8000_0000))
  }

  predicate Interleaved(realmm: bool, a: u32) { realmm && 0x8000_0000 <= a < 0xC000_0000 }

  predicate InWindow(a: u32) { VV_WINDOW <= a < VV_WINDOW + 64 * VV_STRIDE }

  /** a is a view of RAM address b. */
  predicate Views(realmm: bool, a: u32, b: u32) {
    (Interleaved(realmm, a) && b == a - 0x8000_0000) ||
    (InWindow(a) && b == (if realmm then VV_TEMPLATE - 0xC000_0000 else VV_TEMPLATE) + (a - VV_WINDOW) % VV_STRIDE)
  }

  /** Which addresses alias, in closed form. */
  lemma CphysAliases(realmm: bool, a: u32, b: u32)
    ensures Cphys(realmm, a) == Cphys(realmm, b) <==> Aliases(realmm, a, b)
  {
  }

  /** A store at a is seen at b exactly when the two fold to one byte. */
  lemma AliasIff(f: Fold, m: Store, a: u32, b: u32, v: u8)
    requires v != R8(f, m, b)
    ensures R8(f, W8(f, m, a, v), b) == v <==> f(a) == f(b)
  {
  }

  /** The bytes a word access at a touches. */
  predicate Touches(f: Fold, a: u32, c: int) {
    c == f(a) || c == Lane(f, a, 1) || c == Lane(f, a, 2) || c == Lane(f, a, 3)
  }

  /** No two of a word's four bytes alias, even across a page or window edge. */
  lemma WordBytesDistinct(f: Fold, a: u32, i: nat, j: nat)
    requires PageFold(f) && i < j < 4
    ensures Lane(f, a, i) != Lane(f, a, j)
  {
    var x, y := Wrap(a + i), Wrap(a + j);
    WrapOffset(a + i);
    WrapOffset(a + j);
    OffsetsDiffer(a, i, j);
    assert f(x) % 4096 == x % 4096 && f(y) % 4096 == y % 4096;
  }

  lemma OffsetsDiffer(a: nat, i: nat, j: nat)
    requires i < j < 4096
    ensures (a + i) % 4096 != (a + j) % 4096
  {
    var q, r := (a + i) / 4096, (a + i) % 4096;
    if r + (j - i) < 4096 {
      DivModUnique(a + j, 4096, q, r + (j - i));
    } else {
      DivModUnique(a + j, 4096, q + 1, r + (j - i) - 4096);
    }
  }

  lemma WrapOffset(x: nat)
    ensures Wrap(x) % 4096 == x % 4096
  {
    DivModUnique(x, 4096, Wrap(x) / 4096 + 0x10_0000 * (x / 0x1_0000_0000), Wrap(x) % 4096);
  }

  /** The frame after this one, around the end of the address space. */
  function NextFrame(x: Frame): Frame {
    WrapOffset(x + 4096);
    Wrap(x + 4096)
  }

  lemma BytesOfWord(v: u32)
    ensures Be32(Byte(v, 0), Byte(v, 1), Byte(v, 2), Byte(v, 3)) == v
  {
    var d, t := v % 256, v / 256;
    var c, u := t % 256, t / 256;
    var b, a := u % 256, u / 256;
    DivModUnique(v, 0x1_0000, u, 256 * c + d);
    DivModUnique(v, 0x100_0000, a, 0x1_0000 * b + 256 * c + d);
    BigFour(a, b, c, d);
  }

  /** Word write then word read, at any address, crossing or not. */
  lemma WordRoundTrip(f: Fold, m: Store, a: u32, v: u32)
    requires PageFold(f)
    ensures R32(f, W32(f, m, a, v), a) == v
  {
    hide Byte, Be32;
    assert Lane(f, a, 0) == f(a);
    BytesOfWord(v);
    WordBytesDistinct(f, a, 0, 1); WordBytesDistinct(f, a, 0, 2); WordBytesDistinct(f, a, 0, 3);
    WordBytesDistinct(f, a, 1, 2); WordBytesDistinct(f, a, 1, 3); WordBytesDistinct(f, a, 2, 3);
  }

  /** A word write changes its own four bytes only. */
  lemma WordFrame(f: Fold, m: Store, a: u32, v: u32, c: int)
    requires !Touches(f, a, c)
    ensures Rd(W32(f, m, a, v), c) == Rd(m, c)
  {
  }

  /** A word read depends on its own four bytes only. */
  lemma WordReadFrame(f: Fold, m: Store, m': Store, b: u32)
    requires forall c :: Touches(f, b, c) ==> Rd(m, c) == Rd(m', c)
    ensures R32(f, m, b) == R32(f, m', b)
  {
    assert Touches(f, b, f(b)) && Touches(f, b, Lane(f, b, 1));
    assert Touches(f, b, Lane(f, b, 2)) && Touches(f, b, Lane(f, b, 3));
  }

  /** A word of RAM that no window shows. */
  predicate Ram(a: u32) { a % 4 == 0 && !InWindow(a) }

  /** Words of RAM do not overlap. */
  lemma RamWordsApart(m: Store, a: u32, b: u32, v: u32)
    requires Ram(a) && Ram(b) && a != b
    ensures R32(FoldOf(false), W32(FoldOf(false), m, b, v), a) == R32(FoldOf(false), m, a)
  {
    hide R32, W32, Touches, FoldOf;
    var f := FoldOf(false);
    RamLanes(a);
    RamLanes(b);
    forall c | Touches(f, a, c) ensures Rd(W32(f, m, b, v), c) == Rd(m, c) {
      WordFrame(f, m, b, v, c);
    }
    WordReadFrame(f, W32(f, m, b, v), m, a);
  }

  lemma RamLanes(a: u32)
    requires Ram(a)
    ensures forall c :: Touches(FoldOf(false), a, c) <==> a <= c < a + 4
  {
    assert a + 3 < TWO32;
  }

  /** Inside one page the four bytes of a word are consecutive. */
  lemma LanesInPage(f: Fold, a: u32, k: nat)
    requires PageFold(f) && a % 4096 + k < 4096
    ensures Lane(f, a, k) == f(a) / 4096 * 4096 + a % 4096 + k
  {
    var x := a + k;
    assert x / 4096 == a / 4096 && Wrap(x) == x;
    assert f(x) - x == f(a) - a && f(a) % 4096 == a % 4096;
  }

  /** The word at an address that does not cross its page. */
  lemma WordInPage(f: Fold, m: Store, a: u32, v: u32)
    requires PageFold(f) && a % 4096 <= 4092
    ensures var c := f(a) / 4096 * 4096 + a % 4096;
      && R32(f, m, a) == Be32(Rd(m, c), Rd(m, c + 1), Rd(m, c + 2), Rd(m, c + 3))
      && W32(f, m, a, v) == m[c := Byte(v, 0)][c + 1 := Byte(v, 1)][c + 2 := Byte(v, 2)][c + 3 := Byte(v, 3)]
  {
    hide Be32, Byte;
    LanesInPage(f, a, 0); LanesInPage(f, a, 1);
    LanesInPage(f, a, 2); LanesInPage(f, a, 3);
  }

  lemma StoreInPage(f: Fold, m: Store, a: u32, v: u32)
    requires PageFold(f) && a % 4096 <= 4092
    ensures var c := f(a) / 4096 * 4096 + a % 4096;
      W32(f, m, a, v) == m[c := Byte(v, 0)][c + 1 := Byte(v, 1)][c + 2 := Byte(v, 2)][c + 3 := Byte(v, 3)]
  {
    WordInPage(f, m, a, v);
  }

  // --- the sparse implementation -----------------------------------------

  class PagedMemory {
    const fold: Fold
    var pages: map<int, seq<u8>>

    constructor (realmm: bool)
      ensures Valid() && Holds(map[]) && fold == FoldOf(realmm)
    {
      CphysIsPageFold(realmm);
      fold := FoldOf(realmm);
      pages := map[];
    }

    ghost predicate Valid()
      reads this
    {
      && PageFold(fold)
      && forall i :: i in pages ==> 0 <= i < 0x10_0000 && |pages[i]| == 4096
    }

    ghost function ByteAt(c: int): u8
      requires Valid()
      reads this
    {
      if c / 4096 in pages then pages[c / 4096][c % 4096] else 0
    }

    /** The pages hold the flat store m. */
    ghost predicate Holds(m: Store)
      requires Valid()
      reads this
    {
      forall c: u32 :: ByteAt(c) == Rd(m, c)
    }

    /** The page an address lives in, allocated zeroed on first touch. */
    method PageOf(a: u32, ghost m: Store) returns (i: int)
      requires Valid() && Holds(m)
      modifies this
      ensures Valid() && Holds(m)
      ensures i == fold(a) / 4096 && i in pages
      ensures forall j :: j in old(pages) ==> j in pages && pages[j] == old(pages)[j]
    {
      i := fold(a) / 4096;
      if i !in pages {
        ghost var was := pages;
        pages := pages[i := seq(4096, _ => 0)];
        forall c: u32 ensures ByteAt(c) == Rd(m, c) {
          assert (if c / 4096 in was then was[c / 4096][c % 4096] else 0) == Rd(m, c);
        }
      }
    }

    /** p[off] on an allocated page. */
    method Get(i: int, off: int, ghost m: Store) returns (v: u8)
      requires Valid() && Holds(m) && i in pages && 0 <= off < 4096
      ensures v == Rd(m, i * 4096 + off)
    {
      v := pages[i][off];
      ghost var c := i * 4096 + off;
      assert c / 4096 == i && c % 4096 == off;
      assert ByteAt(c) == Rd(m, c);
    }

    /** p[off] = v on an allocated page. */
    method Put(i: int, off: int, v: u8, ghost m: Store)
      requires Valid() && Holds(m) && i in pages && 0 <= off < 4096
      modifies this
      ensures Valid() && Holds(m[i * 4096 + off := v])
      ensures forall j :: j in old(pages) ==> j in pages
    {
      ghost var was := pages;
      var p: seq<u8> := pages[i][off := v];
      pages := pages[i := p];
      ghost var m' := m[i * 4096 + off := v];
      forall c: u32 ensures ByteAt(c) == Rd(m', c) {
        assert (if c / 4096 in was then was[c / 4096][c % 4096] else 0) == Rd(m, c);
        assert c == c / 4096 * 4096 + c % 4096;
      }
    }

    method Read8(a: u32, ghost m: Store) returns (v: u8)
      requires Valid() && Holds(m)
      modifies this
      ensures Valid() && Holds(m)
      ensures v == R8(fold, m, a)
    {
      var i := PageOf(a, m);
      v := Get(i, a % 4096, m);
      LanesInPage(fold, a, 0);
    }

    method Write8(a: u32, v: u8, ghost m: Store)
      requires Valid() && Holds(m)
      modifies this
      ensures Valid() && Holds(W8(fold, m, a, v))
    {
      var i := PageOf(a, m);
      LanesInPage(fold, a, 0);
      Put(i, a % 4096, v, m);
    }

    method Read16(a: u32, ghost m: Store) returns (v: u16)
      requires Valid() && Holds(m)
      modifies this
      ensures Valid() && Holds(m)
      ensures v == R16(fold, m, a)
    {
      hide Holds, Ahead;
      var b0 := Read8(a, m);
      var b1 := Read8(Ahead(a, 1), m);
      v := Be16(b0, b1);
    }

    method Write16(a: u32, v: u16, ghost m: Store)
      requires Valid() && Holds(m)
      modifies this
      ensures Valid() && Holds(W16(fold, m, a, v))
    {
      hide Holds, Ahead;
      Write8(a, v / 0x100, m);
      Write8(Ahead(a, 1), v % 0x100, W8(fold, m, a, v / 0x100));
    }

    /** Four bytes straight out of one page when the word does not cross,
        byte by byte otherwise. */
    method Read32(a: u32, ghost m: Store) returns (v: u32)
      requires Valid() && Holds(m)
      modifies this
      ensures Valid() && Holds(m)
      ensures v == R32(fold, m, a)
    {
      hide Be32, Holds, R32;
      if a % 4096 <= 4092 {
        var i := PageOf(a, m);
        WordInPage(fold, m, a, 0);
        var b0 := Get(i, a % 4096, m);
        var b1 := Get(i, a % 4096 + 1, m);
        var b2 := Get(i, a % 4096 + 2, m);
        var b3 := Get(i, a % 4096 + 3, m);
        v := Be32(b0, b1, b2, b3);
      } else {
        v := ReadBytes(a, m);
      }
    }

    method ReadBytes(a: u32, ghost m: Store) returns (v: u32)
      requires Valid() && Holds(m)
      modifies this
      ensures Valid() && Holds(m)
      ensures v == R32(fold, m, a)
    {
      hide Be32, Holds;
      var b0 := Read8(a, m);
      var b1 := Read8(Ahead(a, 1), m);
      var b2 := Read8(Ahead(a, 2), m);
      var b3 := Read8(Ahead(a, 3), m);
      v := Be32(b0, b1, b2, b3);
    }

    method Write32(a: u32, v: u32, ghost m: Store)
      requires Valid() && Holds(m)
      modifies this
      ensures Valid() && Holds(W32(fold, m, a, v))
    {
      hide Byte, Holds, W32, PageFold;
      if a % 4096 <= 4092 {
        WriteInPage(a, v, m);
      } else {
        WriteBytes(a, v, m);
      }
    }

    method WriteInPage(a: u32, v: u32, ghost m: Store)
      requires Valid() && Holds(m) && a % 4096 <= 4092
      modifies this
      ensures Valid() && Holds(W32(fold, m, a, v))
    {
      hide Byte, Holds, W32, PageFold;
      StoreInPage(fold, m, a, v);
      var i := PageOf(a, m);
      Put4(i, a % 4096, v, m);
    }

    method WriteBytes(a: u32, v: u32, ghost m: Store)
      requires Valid() && Holds(m)
      modifies this
      ensures Valid() && Holds(W32(fold, m, a, v))
    {
      hide Byte, Holds;
      ghost var m1 := m[fold(a) := Byte(v, 0)];
      ghost var m2 := m1[Lane(fold, a, 1) := Byte(v, 1)];
      Write8(a, Byte(v, 0), m);
      Write8(Ahead(a, 1), Byte(v, 1), m1);
      Write8(Ahead(a, 2), Byte(v, 2), m2);
      Write8(Ahead(a, 3), Byte(v, 3), m2[Lane(fold, a, 2) := Byte(v, 2)]);
    }

    method Put4(i: int, off: int, v: u32, ghost m: Store)
      requires Valid() && Holds(m) && i in pages && 0 <= off <= 4092
      modifies this
      ensures Valid()
      ensures var c := i * 4096 + off;
        Holds(m[c := Byte(v, 0)][c + 1 := Byte(v, 1)][c + 2 := Byte(v, 2)][c + 3 := Byte(v, 3)])
    {
      hide Byte, Holds;
      ghost var c := i * 4096 + off;
      ghost var m1 := m[c := Byte(v, 0)];
      ghost var m2 := m1[c + 1 := Byte(v, 1)];
      Put(i, off, Byte(v, 0), m);
      Put(i, off + 1, Byte(v, 1), m1);
      Put(i, off + 2, Byte(v, 2), m2);
      Put(i, off + 3, Byte(v, 3), m2[c + 2 := Byte(v, 2)]);
    }
  }
}
