/** The read-only file system reader: where inodes lie, how block numbers are
    mapped, and what a file's bytes are. */
module Ffs {
  import opened Words
  import opened Memory

  /** What the superblock says of the layout, sizes in bytes or fragments. */
  datatype Geometry = Geometry(
    fsize: u32, bsize: u32, frag: u32, iblkno: u32, cgoffset: u32, cgmask: u32,
    ipg: u32, fpg: u32, inopb: u32, nindir: u32)

  /** What the reader itself checks before it uses one. */
  predicate Usable(g: Geometry) {
    g.fsize > 0 && g.bsize > 0 && g.ipg > 0 && g.inopb > 0 && g.nindir > 0
  }

  function Mul(a: int, b: int): int { a * b }

  // --- inode placement -------------------------------------------------------------

  /** First fragment of a group's inode area, which rotates through the group. */
  function GroupArea(g: Geometry, cg: u32): nat
  {
    MulNat(g.cgoffset, And32(cg, Not32(g.cgmask)));
    Mul(g.cgoffset, And32(cg, Not32(g.cgmask))) + g.iblkno
  }

  lemma MulNat(a: nat, b: nat)
    ensures Mul(a, b) >= 0
  {
  }

  /** Where an inode lies, in 32-bit arithmetic as the reader computes it. */
  function DinodeByte(g: Geometry, ino: u32): u32
    requires Usable(g)
  {
    var cg := ino / g.ipg;
    var cgstart := Wrap(Wrap(Mul(g.fpg, cg)) + Wrap(Mul(g.cgoffset, And32(cg, Not32(g.cgmask)))));
    var fragaddr := Wrap(Wrap(cgstart + g.iblkno) + Wrap(Mul(ino % g.ipg / g.inopb, g.frag)));
    Wrap(Wrap(Mul(fragaddr, g.fsize)) + Wrap((ino % g.inopb) * 128))
  }

  /** Where it lies in the image: its number within the group, counted from the
      group's inode area. */
  function DinodeAt(g: Geometry, ino: u32): int
    requires Usable(g)
  {
    Mul(Mul(g.fpg, ino / g.ipg) + GroupArea(g, ino / g.ipg), g.fsize) + 128 * (ino % g.ipg)
  }

  /** A layout newfs makes: blocks of whole fragments, inodes filling blocks and
      blocks filling groups, and every rotated inode area inside its group. */
  predicate WellFormed(g: Geometry) {
    Usable(g) && Mul(g.frag, g.fsize) == g.bsize && g.bsize == g.inopb * 128 &&
    g.ipg % g.inopb == 0 &&
    forall cg: u32 {:trigger GroupArea(g, cg)} :: GroupArea(g, cg) + Mul(g.ipg / g.inopb, g.frag) <= g.fpg
  }

  lemma WrapSum(x: int, y: int)
    ensures Wrap(Wrap(x) + Wrap(y)) == Wrap(x + y)
  {
    WrapAdd(x, Wrap(y));
    WrapAdd(y, x);
  }

  lemma WrapMul(x: int, y: int)
    ensures Wrap(Mul(Wrap(x), y)) == Wrap(Mul(x, y))
  {
    var q, r := x / TWO32, Wrap(x);
    var z := Mul(r, y);
    assert x == TWO32 * q + r;
    assert Mul(x, y) == TWO32 * Mul(q, y) + z by { Distribute(q, r, y); }
    DivModUnique(Mul(x, y), TWO32, Mul(q, y) + z / TWO32, z % TWO32);
  }

  lemma Distribute(q: int, r: int, y: int)
    ensures Mul(TWO32 * q + r, y) == TWO32 * Mul(q, y) + Mul(r, y)
  {
  }

  lemma MulAdd(a: int, b: int, c: int)
    ensures Mul(a + b, c) == Mul(a, c) + Mul(b, c)
  {
  }

  lemma MulAssoc(a: int, b: int, c: int)
    ensures Mul(Mul(a, b), c) == Mul(a, Mul(b, c))
  {
  }

  lemma MulOrder(a: int, b: int, c: nat)
    requires a <= b
    ensures Mul(a, c) <= Mul(b, c)
  {
  }

  /** Remainders by a divisor of the modulus. */
  lemma ModMod(x: nat, d: nat, k: nat)
    requires d > 0 && k > 0 && k % d == 0
    ensures x % k % d == x % d
  {
    var m, q, r := k / d, x / k, x % k;
    assert k == d * m && x == k * q + r;
    assert k * q == d * (m * q) by { MulAssoc(d, m, q); }
    var s := m * q;
    assert x == d * (s + r / d) + r % d;
    DivModUnique(x, d, s + r / d, r % d);
  }

  /** l blocks of inodes, in bytes. */
  lemma InodeBlocks(g: Geometry, l: nat)
    requires WellFormed(g)
    ensures Mul(Mul(l, g.frag), g.fsize) == 128 * Mul(l, g.inopb)
  {
    MulAssoc(l, g.frag, g.fsize);
    assert Mul(l, 128 * g.inopb) == 128 * Mul(l, g.inopb);
  }

  /** Block and index within the block make up the number within the group. */
  lemma WithinGroup(g: Geometry, ino: u32)
    requires WellFormed(g)
    ensures Mul(ino % g.ipg / g.inopb, g.inopb) + ino % g.inopb == ino % g.ipg
  {
    ModMod(ino, g.inopb, g.ipg);
  }

  lemma WrappedFragment(g: Geometry, ino: u32)
    requires WellFormed(g)
    ensures var cg := ino / g.ipg;
      var cgstart := Wrap(Wrap(Mul(g.fpg, cg)) + Wrap(Mul(g.cgoffset, And32(cg, Not32(g.cgmask)))));
      Wrap(Wrap(cgstart + g.iblkno) + Wrap(Mul(ino % g.ipg / g.inopb, g.frag))) ==
      Wrap(Mul(g.fpg, cg) + GroupArea(g, cg) + Mul(ino % g.ipg / g.inopb, g.frag))
  {
    hide Mul, And32, Wrap;
    var cg := ino / g.ipg;
    var x, y := Mul(g.fpg, cg), Mul(g.cgoffset, And32(cg, Not32(g.cgmask)));
    WrapSum(x, y);
    WrapAdd(x + y, g.iblkno);
    WrapSum(x + y + g.iblkno, Mul(ino % g.ipg / g.inopb, g.frag));
  }

  /** Fragment of the block an inode is in. */
  function DinodeFrag(g: Geometry, ino: u32): int
    requires Usable(g)
  {
    Mul(g.fpg, ino / g.ipg) + GroupArea(g, ino / g.ipg) + Mul(ino % g.ipg / g.inopb, g.frag)
  }

  lemma PlacementWraps(g: Geometry, ino: u32)
    requires WellFormed(g)
    ensures DinodeByte(g, ino) == Wrap(Mul(DinodeFrag(g, ino), g.fsize) + ino % g.inopb * 128)
  {
    hide Mul, And32, GroupArea, Wrap;
    WrappedFragment(g, ino);
    WrapMul(DinodeFrag(g, ino), g.fsize);
    WrapSum(Mul(DinodeFrag(g, ino), g.fsize), ino % g.inopb * 128);
  }

  lemma PlacementLinear(g: Geometry, ino: u32)
    requires WellFormed(g)
    ensures Mul(DinodeFrag(g, ino), g.fsize) + ino % g.inopb * 128 == DinodeAt(g, ino)
  {
    hide Mul, And32, GroupArea;
    var l := ino % g.ipg / g.inopb;
    MulAdd(Mul(g.fpg, ino / g.ipg) + GroupArea(g, ino / g.ipg), Mul(l, g.frag), g.fsize);
    InodeBlocks(g, l);
    WithinGroup(g, ino);
  }

  /** The reader finds every inode at its place, as far as 32 bits reach: its
      address is the place modulo 2^32. */
  lemma PlacementExact(g: Geometry, ino: u32)
    requires WellFormed(g)
    ensures DinodeByte(g, ino) == Wrap(DinodeAt(g, ino))
    ensures DinodeByte(g, ino) == DinodeAt(g, ino) <==> DinodeAt(g, ino) < TWO32
  {
    hide Mul, GroupArea, DinodeAt, DinodeByte, DinodeFrag;
    PlacementWraps(g, ino);
    PlacementLinear(g, ino);
    DinodeInGroup(g, ino);
  }

  /** Every inode lies inside its own group's fragments. */
  lemma DinodeInGroup(g: Geometry, ino: u32)
    requires WellFormed(g)
    ensures var cg := ino / g.ipg;
      0 <= Mul(Mul(g.fpg, cg), g.fsize) <= DinodeAt(g, ino) &&
      DinodeAt(g, ino) + 128 <= Mul(Mul(g.fpg, cg + 1), g.fsize)
  {
    hide Mul, And32;
    var cg := ino / g.ipg;
    var start, area, blocks := Mul(g.fpg, cg), GroupArea(g, cg), g.ipg / g.inopb;
    GroupBytes(g);
    MulAdd(start + area, Mul(blocks, g.frag), g.fsize);
    MulOrder(start, start + area, g.fsize);
    NextGroup(g.fpg, cg);
    MulOrder(start + area + Mul(blocks, g.frag), start + g.fpg, g.fsize);
    MulNat(g.fpg, cg);
    MulNat(start, g.fsize);
  }

  lemma NextGroup(f: int, cg: int)
    ensures Mul(f, cg + 1) == Mul(f, cg) + f
  {
  }

  lemma GroupBytes(g: Geometry)
    requires WellFormed(g)
    ensures Mul(Mul(g.ipg / g.inopb, g.frag), g.fsize) == 128 * g.ipg
  {
    InodeBlocks(g, g.ipg / g.inopb);
  }

  /** Two inodes never share a byte, whether in one group or in two. */
  lemma InodesDisjoint(g: Geometry, a: u32, b: u32)
    requires WellFormed(g) && a < b
    ensures DinodeAt(g, a) + 128 <= DinodeAt(g, b)
  {
    hide Mul, And32, GroupArea;
    var x, y := a / g.ipg, b / g.ipg;
    GroupsOrdered(a, b, g.ipg);
    if x < y {
      DinodeInGroup(g, a);
      DinodeInGroup(g, b);
      GroupOrder(g.fpg, x + 1, y);
      MulOrder(Mul(g.fpg, x + 1), Mul(g.fpg, y), g.fsize);
    }
  }

  lemma GroupOrder(f: nat, x: int, y: int)
    requires x <= y
    ensures Mul(f, x) <= Mul(f, y)
  {
  }

  lemma GroupsOrdered(a: nat, b: nat, d: nat)
    requires d > 0 && a < b
    ensures a / d <= b / d
    ensures a / d == b / d ==> a % d < b % d
  {
    var q, r := a / d, a % d;
    if b / d < q {
      MulOrder(b / d + 1, q, d);
      assert false;
    }
  }

  /** Groups of 64 MB, 64 inodes in each. */
  predicate FarLayout(g: Geometry) {
    g == Geometry(1024, 8192, 8, 32, 0, 0xFFFF_FFFF, 64, 0x1_0000, 64, 2048)
  }

  lemma FarWellFormed(g: Geometry)
    requires FarLayout(g)
    ensures WellFormed(g) && GroupArea(g, 0) == GroupArea(g, 64) == 32
  {
    hide And32;
    forall cg: u32 ensures GroupArea(g, cg) == 32 { }
  }

  lemma FarPlaces(g: Geometry)
    requires FarLayout(g)
    ensures DinodeAt(g, 0) == 0x8000 && DinodeAt(g, 4096) == TWO32 + 0x8000
  {
    hide GroupArea, Mul;
    FarWellFormed(g);
    FarProducts();
  }

  lemma FarProducts()
    ensures Mul(0x1_0000, 0) == 0 && Mul(32, 1024) == 0x8000
    ensures Mul(0x1_0000, 64) == 0x40_0000 && Mul(0x40_0020, 1024) == TWO32 + 0x8000
  {
  }

  /** The first inode past 64 such groups is 4 GB in, and is read from where inode 0
      is. */
  lemma FarInodeExample(g: Geometry)
    requires FarLayout(g)
    ensures WellFormed(g) && DinodeAt(g, 4096) == TWO32 + 0x8000
    ensures DinodeByte(g, 4096) == DinodeByte(g, 0) == 0x8000
  {
    hide WellFormed, GroupArea, DinodeByte, DinodeAt, FarLayout, Mul;
    FarWellFormed(g);
    FarPlaces(g);
    PlacementExact(g, 0);
    PlacementExact(g, 4096);
  }

  // --- block numbers -------------------------------------------------------------------

  /** Where a block's address is kept: in the inode, in a block of addresses, or
      in a block of a block of them. */
  datatype Place = Direct(i: nat) | Single(i: nat) | Double(i: nat, j: nat) | Beyond

  function Split(nind: u32, bn: nat): Place
    requires nind > 0
  {
    if bn < 12 then Direct(bn)
    else if bn - 12 < nind then Single(bn - 12)
    else if bn - 12 - nind < Mul(nind, nind) then Double((bn - 12 - nind) / nind, (bn - 12 - nind) % nind)
    else Beyond
  }

  predicate InRange(nind: u32, p: Place) {
    match p
    case Direct(i) => i < 12
    case Single(i) => i < nind
    case Double(i, j) => i < nind && j < nind
    case Beyond => false
  }

  function Block(nind: u32, p: Place): int {
    match p
    case Direct(i) => i
    case Single(i) => 12 + i
    case Double(i, j) => 12 + nind + Mul(i, nind) + j
    case Beyond => -1
  }

  function Reach(nind: u32): int { 12 + nind + Mul(nind, nind) }

  /** Every block within reach has one place, in range, and it is its own. */
  lemma SplitInRange(nind: u32, bn: nat)
    requires nind > 0
    ensures bn < Reach(nind) <==> InRange(nind, Split(nind, bn))
    ensures bn < Reach(nind) ==> Block(nind, Split(nind, bn)) == bn
  {
    var x := bn - 12 - nind;
    if 0 <= x < Mul(nind, nind) {
      var q := x / nind;
      assert x == Mul(q, nind) + x % nind;
      if q >= nind {
        MulOrder(nind, q, nind);
        assert false;
      }
    }
  }

  /** And every place in range belongs to one block: the split is a bijection. */
  lemma BlockInReach(nind: u32, p: Place)
    requires nind > 0 && InRange(nind, p)
    ensures 0 <= Block(nind, p) < Reach(nind) && Split(nind, Block(nind, p)) == p
  {
    if p.Double? {
      MulOrder(p.i + 1, nind, nind);
      MulAdd(p.i, 1, nind);
      MulNat(p.i, nind);
      DivModUnique(Mul(p.i, nind) + p.j, nind, p.i, p.j);
    }
  }

  // --- the image -----------------------------------------------------------------------

  /** Reads past the end of the image give zeros. */
  function ImageByte(img: seq<u8>, o: nat): u8 { if o < |img| then img[o] else 0 }

  /** A big-endian word, 0 if it is not wholly inside the image. */
  function Word(img: seq<u8>, o: u32): u32 {
    if o + 4 <= |img| then Be32(img[o], img[o + 1], img[o + 2], img[o + 3]) else 0
  }

  function FragByte(g: Geometry, frag: u32): u32 { Wrap(Mul(frag, g.fsize)) }

  function Indirect(img: seq<u8>, g: Geometry, blk: u32, idx: u32): u32 {
    if blk == 0 then 0 else Word(img, Wrap(FragByte(g, blk) + Wrap(4 * idx)))
  }

  /** The address kept at a place, 0 for a hole. */
  function AtPlace(img: seq<u8>, g: Geometry, db: seq<u32>, ib: seq<u32>, p: Place): u32
    requires |db| == 12 && |ib| == 3
  {
    match p
    case Direct(i) => if i < 12 then db[i] else 0
    case Single(i) => if i < g.nindir then Indirect(img, g, ib[0], i) else 0
    case Double(i, j) => if i < g.nindir && j < g.nindir then Indirect(img, g, Indirect(img, g, ib[1], i), j) else 0
    case Beyond => 0
  }

  /** The block map as the reader computes it, in 32-bit arithmetic. */
  function Bmap(img: seq<u8>, g: Geometry, db: seq<u32>, ib: seq<u32>, bn: u32): u32
    requires Usable(g) && |db| == 12 && |ib| == 3
  {
    if bn < 12 then db[bn]
    else if bn - 12 < g.nindir then Indirect(img, g, ib[0], bn - 12)
    else if bn - 12 - g.nindir < Wrap(Mul(g.nindir, g.nindir)) then
      var x := bn - 12 - g.nindir;
      QuotientLess(x, g.nindir);
      Indirect(img, g, Indirect(img, g, ib[1], x / g.nindir), x % g.nindir)
    else 0
  }

  lemma QuotientLess(x: nat, d: nat)
    requires d > 0
    ensures 0 <= x / d <= x && 0 <= x % d <= x
  {
    DivShrinks(x, d);
  }

  lemma NoWrapSquare(d: u32)
    requires d < 0x1_0000
    ensures Wrap(Mul(d, d)) == Mul(d, d)
  {
    assert 0 <= Mul(d, d) < TWO32 by { MulOrder(d, 0xFFFF, d); MulOrder(0, d, d); }
  }

  /** How far it reaches: the square of the addresses to a block is taken in 32 bits. */
  function WrappedReach(nind: u32): int { 12 + nind + Wrap(Mul(nind, nind)) }

  /** It is the address kept at the block's place as far as it reaches, and a hole
      beyond; that is every place there is exactly when a block of addresses has
      fewer than 65536 of them. */
  lemma BmapIsPlace(img: seq<u8>, g: Geometry, db: seq<u32>, ib: seq<u32>, bn: u32)
    requires Usable(g) && |db| == 12 && |ib| == 3
    ensures Bmap(img, g, db, ib, bn) ==
      if bn < WrappedReach(g.nindir) then AtPlace(img, g, db, ib, Split(g.nindir, bn)) else 0
    ensures WrappedReach(g.nindir) == Reach(g.nindir) <==> g.nindir < 0x1_0000
  {
    hide Mul, Indirect;
    SquareWraps(g.nindir);
    SplitInRange(g.nindir, bn);
  }

  lemma SquareWraps(d: u32)
    ensures 0 <= Wrap(Mul(d, d)) <= Mul(d, d)
    ensures Wrap(Mul(d, d)) == Mul(d, d) <==> d < 0x1_0000
  {
    if d < 0x1_0000 {
      NoWrapSquare(d);
    } else {
      MulOrder(0x1_0000, d, d);
      MulAtLeastSquare(d);
    }
  }

  lemma MulAtLeastSquare(d: u32)
    requires d >= 0x1_0000
    ensures Mul(d, d) >= TWO32
  {
  }

  // --- a file ----------------------------------------------------------------------------

  datatype Inode = Inode(mode: u16, size: u32, db: seq<u32>, ib: seq<u32>)

  /** The 32-bit field at an offset of an inode. */
  function InodeWord(img: seq<u8>, at: u32, o: nat): u32 {
    Be32(ImageByte(img, at + o), ImageByte(img, at + o + 1), ImageByte(img, at + o + 2), ImageByte(img, at + o + 3))
  }

  function ReadDinode(img: seq<u8>, at: u32): (i: Inode)
    ensures |i.db| == 12 && |i.ib| == 3
  {
    Inode(ImageByte(img, at) * 256 + ImageByte(img, at + 1), InodeWord(img, at, 0x0c),
          seq(12, k requires 0 <= k < 12 => InodeWord(img, at, 0x28 + 4 * k)),
          seq(3, k requires 0 <= k < 3 => InodeWord(img, at, 0x58 + 4 * k)))
  }

  /** Byte o of a file: in its block of the image, or zero in a hole. */
  function FileByte(img: seq<u8>, g: Geometry, i: Inode, o: u32): u8
    requires Usable(g) && |i.db| == 12 && |i.ib| == 3
  {
    QuotientLess(o, g.bsize);
    var fa := Bmap(img, g, i.db, i.ib, o / g.bsize);
    if fa == 0 then 0 else ImageByte(img, FragByte(g, fa) + o % g.bsize)
  }

  /** Copy n bytes of the image, zeros past its end. */
  method ReadAt(img: seq<u8>, off: u32, buf: array<u8>, at: nat, n: nat)
    requires at + n <= buf.Length
    modifies buf
    ensures forall j :: 0 <= j < buf.Length ==>
      buf[j] == if at <= j < at + n then ImageByte(img, off + (j - at)) else old(buf[j])
  {
    for i := 0 to n
      invariant forall j :: 0 <= j < buf.Length ==>
        buf[j] == if at <= j < at + i then ImageByte(img, off + (j - at)) else old(buf[j])
    {
      buf[at + i] := ImageByte(img, off + i);
    }
  }

  method Zero(buf: array<u8>, at: nat, n: nat)
    requires at + n <= buf.Length
    modifies buf
    ensures forall j :: 0 <= j < buf.Length ==> buf[j] == if at <= j < at + n then 0 else old(buf[j])
  {
    for i := 0 to n
      invariant forall j :: 0 <= j < buf.Length ==> buf[j] == if at <= j < at + i then 0 else old(buf[j])
    {
      buf[at + i] := 0;
    }
  }

  lemma InBlock(o: nat, bsize: nat, k: nat, at: nat)
    requires bsize > 0 && at == Mul(k, bsize) && at <= o < at + bsize
    ensures o / bsize == k && o % bsize == o - at
  {
    DivModUnique(o, bsize, k, o - at);
  }

  /** One block of a file into its place in the buffer. */
  method ReadBlock(img: seq<u8>, g: Geometry, i: Inode, buf: array<u8>, k: u32)
    requires Usable(g) && |i.db| == 12 && |i.ib| == 3 && buf.Length == i.size
    requires i.size + g.bsize <= TWO32 && Mul(k, g.bsize) < i.size
    modifies buf
    ensures forall o :: 0 <= o < i.size ==>
      buf[o] == if Mul(k, g.bsize) <= o < Mul(k, g.bsize) + g.bsize then FileByte(img, g, i, o) else old(buf[o])
  {
    hide Bmap, Mul, FragByte, ImageByte;
    MulNat(k, g.bsize);
    var at: nat := Mul(k, g.bsize);
    var fa := Bmap(img, g, i.db, i.ib, k);
    var n := if at + g.bsize <= i.size then g.bsize else i.size - at;
    if fa != 0 {
      ReadAt(img, FragByte(g, fa), buf, at, n);
    } else {
      Zero(buf, at, n);
    }
    forall o | at <= o < at + g.bsize && o < i.size ensures buf[o] == FileByte(img, g, i, o) {
      InBlock(o, g.bsize, k, at);
    }
  }

  /** Byte o of a loaded buffer: the file's, provided rounding the size up to a
      block does not leave 32 bits.  When it does, the block count comes out 0
      and the buffer keeps what the allocator left in it. */
  function LoadedByte(img: seq<u8>, g: Geometry, i: Inode, junk: nat -> u8, o: u32): u8
    requires Usable(g) && |i.db| == 12 && |i.ib| == 3
  {
    if i.size + g.bsize <= TWO32 then FileByte(img, g, i, o) else junk(o)
  }

  /** Load an inode into a fresh buffer; junk is what allocated memory holds. */
  method ReadIno(img: seq<u8>, g: Geometry, ino: u32, junk: nat -> u8) returns (i: Inode, buf: array<u8>)
    requires Usable(g)
    ensures i == ReadDinode(img, DinodeByte(g, ino)) && fresh(buf) && buf.Length == i.size
    ensures forall o :: 0 <= o < i.size ==> buf[o] == LoadedByte(img, g, i, junk, o)
  {
    hide FileByte, Mul, ReadDinode, DinodeByte;
    i := ReadDinode(img, DinodeByte(g, ino));
    buf := new u8[i.size](o => junk(o));
    var nblk := Wrap(i.size + g.bsize - 1) / g.bsize;
    var k := 0;
    NextBlock(k, g.bsize);
    while k < nblk
      invariant 0 <= k
      invariant i.size + g.bsize <= TWO32 ==>
        forall o :: 0 <= o < i.size && o < Mul(k, g.bsize) ==> buf[o] == FileByte(img, g, i, o)
      invariant i.size + g.bsize > TWO32 ==> forall o :: 0 <= o < i.size ==> buf[o] == junk(o)
    {
      BlockCount(i.size, g.bsize, k);
      ReadBlock(img, g, i, buf, k);
      NextBlock(k, g.bsize);
      k := k + 1;
    }
    BlockCount(i.size, g.bsize, k);
  }

  lemma NextBlock(k: nat, b: nat)
    ensures Mul(k + 1, b) == Mul(k, b) + b && (k == 0 ==> Mul(k, b) == 0)
  {
  }

  /** The block count covers the size exactly, or is 0 when it wraps. */
  lemma BlockCount(size: u32, bsize: u32, k: nat)
    requires bsize > 0
    ensures size + bsize > TWO32 ==> Wrap(size + bsize - 1) / bsize == 0
    ensures size + bsize <= TWO32 && k < Wrap(size + bsize - 1) / bsize ==> Mul(k, bsize) < size
    ensures size + bsize <= TWO32 && k >= Wrap(size + bsize - 1) / bsize ==> Mul(k, bsize) >= size
  {
    var t := size + bsize - 1;
    if size + bsize > TWO32 {
      DivModUnique(t, TWO32, 1, t - TWO32);
      DivModUnique(t - TWO32, bsize, 0, t - TWO32);
    } else {
      var q := t / bsize;
      assert t == Mul(q, bsize) + t % bsize;
      if k < q {
        MulOrder(k + 1, q, bsize);
        MulAdd(k, 1, bsize);
      } else {
        MulOrder(q, k, bsize);
      }
    }
  }

  /** A size one short of 4 GB rounds up to nothing: no block is read. */
  lemma HugeFileExample()
    ensures Wrap(0xFFFF_FFFF + 8192 - 1) / 8192 == 0
  {
    BlockCount(0xFFFF_FFFF, 8192, 0);
  }
}
