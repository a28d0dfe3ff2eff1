/** Files laid out on an image, and read back: inodes, blocks of addresses and data
    written byte by byte, and the reader's inode, block addresses and file bytes
    shown to be the ones written. */
module FfsLayout {
  import opened Words
  import opened Memory
  import opened Ffs
  import opened Namei

  // --- written words --------------------------------------------------------------

  /** Most significant byte first. */
  function WordBytes(v: u32): seq<u8> { [v / 0x100_0000, v / 0x1_0000 % 256, v / 256 % 256, v % 256] }

  function WordsBytes(ws: seq<u32>): seq<u8> {
    if ws == [] then [] else WordBytes(ws[0]) + WordsBytes(ws[1..])
  }

  /** The bytes are on the image at this offset. */
  predicate Lies(img: seq<u8>, at: nat, bytes: seq<u8>) {
    at + |bytes| <= |img| && img[at..at + |bytes|] == bytes
  }

  lemma WordReads(v: u32)
    ensures var b := WordBytes(v); Be32(b[0], b[1], b[2], b[3]) == v
  {
    hide Be32;
    BytesOfWord(v);
  }

  lemma {:induction false} WordsLie(img: seq<u8>, at: nat, ws: seq<u32>, i: nat)
    requires Lies(img, at, WordsBytes(ws)) && i < |ws|
    ensures |WordsBytes(ws)| == 4 * |ws|
    ensures Lies(img, at + 4 * i, WordBytes(ws[i]))
    decreases |ws|
  {
    hide WordBytes;
    WordsLength(ws);
    var all, rest := WordsBytes(ws), WordsBytes(ws[1..]);
    WordsLength(ws[1..]);
    OneWord(ws[0]);
    assert img[at..at + 4] == all[..4] == WordBytes(ws[0]);
    if i == 0 {
    } else {
      assert img[at + 4..at + 4 + |rest|] == all[4..] == rest;
      WordsLie(img, at + 4, ws[1..], i - 1);
    }
  }

  lemma OneWord(v: u32)
    ensures |WordBytes(v)| == 4
  {
  }

  lemma {:induction false} WordsLength(ws: seq<u32>)
    ensures |WordsBytes(ws)| == 4 * |ws|
    decreases |ws|
  {
    if ws == [] {
    } else {
      WordsLength(ws[1..]);
    }
  }

  /** A word that lies at an offset is read from there. */
  lemma WordLies(img: seq<u8>, at: nat, v: u32)
    requires Lies(img, at, WordBytes(v)) && at < TWO32
    ensures Word(img, at) == v
    ensures Be32(ImageByte(img, at), ImageByte(img, at + 1), ImageByte(img, at + 2), ImageByte(img, at + 3)) == v
  {
    hide Be32;
    var b := WordBytes(v);
    WordReads(v);
    var lane := img[at..at + 4];
    assert lane[0] == img[at] && lane[1] == img[at + 1] && lane[2] == img[at + 2] && lane[3] == img[at + 3];
  }

  // --- an inode ----------------------------------------------------------------------

  type Bytes10 = s: seq<u8> | |s| == 10 witness seq(10, _ => 0)
  type Bytes24 = s: seq<u8> | |s| == 24 witness seq(24, _ => 0)
  type Bytes28 = s: seq<u8> | |s| == 28 witness seq(28, _ => 0)

  /** What an inode keeps besides: links and owner, times, and what is behind the
      addresses. */
  datatype Gaps = Gaps(owner: Bytes10, times: Bytes24, rest: Bytes28)

  /** The 128 bytes of an inode: mode, size, twelve direct and three indirect addresses
      at their offsets. */
  function InodeBytes(i: Inode, gaps: Gaps): seq<u8> {
    [i.mode / 256, i.mode % 256] + gaps.owner + WordBytes(i.size) + gaps.times +
    WordsBytes(i.db) + WordsBytes(i.ib) + gaps.rest
  }

  predicate Shaped(i: Inode) { |i.db| == 12 && |i.ib| == 3 }

  lemma InodeParts(img: seq<u8>, at: nat, i: Inode, gaps: Gaps)
    requires Shaped(i) && Lies(img, at, InodeBytes(i, gaps))
    ensures |InodeBytes(i, gaps)| == 128
    ensures img[at] == i.mode / 256 && img[at + 1] == i.mode % 256
    ensures Lies(img, at + 0x0C, WordBytes(i.size))
    ensures Lies(img, at + 0x28, WordsBytes(i.db)) && Lies(img, at + 0x58, WordsBytes(i.ib))
  {
    hide WordBytes, WordsBytes;
    WordsLength(i.db);
    WordsLength(i.ib);
    OneWord(i.size);
    var b := InodeBytes(i, gaps);
    assert b[0x0C..0x10] == WordBytes(i.size);
    assert b[0x28..0x58] == WordsBytes(i.db);
    assert b[0x58..0x64] == WordsBytes(i.ib);
    SubLies(img, at, b, 0x0C, 0x10);
    SubLies(img, at, b, 0x28, 0x58);
    SubLies(img, at, b, 0x58, 0x64);
    assert img[at..at + 128][0] == b[0] && img[at..at + 128][1] == b[1];
  }

  lemma SubLies(img: seq<u8>, at: nat, b: seq<u8>, lo: nat, hi: nat)
    requires Lies(img, at, b) && lo <= hi <= |b|
    ensures Lies(img, at + lo, b[lo..hi])
  {
    assert at + lo + |b[lo..hi]| == at + hi;
    forall k | 0 <= k < hi - lo ensures img[at + lo..at + hi][k] == b[lo..hi][k] {
      assert img[at..at + |b|][lo + k] == b[lo + k];
    }
  }

  /** An inode written is the inode read. */
  lemma InodeRoundTrip(img: seq<u8>, at: u32, i: Inode, gaps: Gaps)
    requires Shaped(i) && Lies(img, at, InodeBytes(i, gaps)) && |img| < TWO32
    ensures ReadDinode(img, at) == i
  {
    hide WordBytes, WordsBytes, InodeBytes, Be32;
    InodeParts(img, at, i, gaps);
    WordLies(img, at + 0x0C, i.size);
    forall k | 0 <= k < 12 ensures InodeWord(img, at, 0x28 + 4 * k) == i.db[k] {
      WordsLie(img, at + 0x28, i.db, k);
      WordLies(img, at + 0x28 + 4 * k, i.db[k]);
    }
    forall k | 0 <= k < 3 ensures InodeWord(img, at, 0x58 + 4 * k) == i.ib[k] {
      WordsLie(img, at + 0x58, i.ib, k);
      WordLies(img, at + 0x58 + 4 * k, i.ib[k]);
    }
    var z := ReadDinode(img, at);
    assert z.db == i.db && z.ib == i.ib;
  }

  // --- addresses ---------------------------------------------------------------------

  /** A block of addresses: missing when they are all holes, else written out. */
  predicate Table(img: seq<u8>, g: Geometry, blk: u32, addrs: seq<u32>) {
    if blk == 0 then forall k :: 0 <= k < |addrs| ==> addrs[k] == 0
    else Lies(img, Mul(blk, g.fsize), WordsBytes(addrs))
  }

  /** Entry i of a block of addresses is address i. */
  lemma TableReads(img: seq<u8>, g: Geometry, blk: u32, addrs: seq<u32>, i: u32)
    requires Table(img, g, blk, addrs) && i < |addrs| && |img| < TWO32
    ensures Indirect(img, g, blk, i) == addrs[i]
  {
    hide WordBytes, WordsBytes, Be32, Mul;
    if blk != 0 {
      MulNat(blk, g.fsize);
      WordsLie(img, Mul(blk, g.fsize), addrs, i);
      WordLies(img, Mul(blk, g.fsize) + 4 * i, addrs[i]);
      OneWord(addrs[i]);
    }
  }

  function Least(a: nat, b: nat): nat { if a < b then a else b }

  /** n addresses from one on, as far as there are any. */
  function Part(a: seq<u32>, from: nat, n: nat): seq<u32> {
    a[Least(from, |a|)..Least(from + n, |a|)]
  }

  /** The addresses of a file's blocks in its inode: twelve directly, the next nindir in
      one block, and the others in blocks that a block names. */
  predicate Mapped(img: seq<u8>, g: Geometry, i: Inode, a: seq<u32>, tables: seq<u32>) {
    |i.db| == 12 && |i.ib| == 3 && |a| <= WrappedReach(g.nindir) && |tables| <= g.nindir &&
    (forall k :: 0 <= k < 12 && k < |a| ==> i.db[k] == a[k]) &&
    (|a| > 12 ==> Table(img, g, i.ib[0], Part(a, 12, g.nindir))) &&
    (|a| > 12 + g.nindir ==>
      |a| <= 12 + g.nindir + Mul(|tables|, g.nindir) && Table(img, g, i.ib[1], tables) &&
      forall t: nat :: t < |tables| ==> Table(img, g, tables[t], Second(g, a, t)))
  }

  /** The addresses behind the t-th of those blocks. */
  function Second(g: Geometry, a: seq<u32>, t: nat): seq<u32> {
    MulNat(t, g.nindir);
    Part(a, 12 + g.nindir + Mul(t, g.nindir), g.nindir)
  }

  /** The reader finds every block where it was put. */
  lemma AddressFound(img: seq<u8>, g: Geometry, i: Inode, a: seq<u32>, tables: seq<u32>, k: u32)
    requires Usable(g) && |img| < TWO32 && Mapped(img, g, i, a, tables) && k < |a|
    ensures Bmap(img, g, i.db, i.ib, k) == a[k]
  {
    hide Indirect, Table, Mul;
    if k < 12 {
    } else if k - 12 < g.nindir {
      TableReads(img, g, i.ib[0], Part(a, 12, g.nindir), k - 12);
    } else {
      var x := k - 12 - g.nindir;
      var t, j := x / g.nindir, x % g.nindir;
      QuotientLess(x, g.nindir);
      SecondIndex(g, a, x);
      TableIndex(g, x, |tables|);
      TableReads(img, g, i.ib[1], tables, t);
      TableReads(img, g, tables[t], Second(g, a, t), j);
    }
  }

  lemma SecondIndex(g: Geometry, a: seq<u32>, x: nat)
    requires g.nindir > 0 && 12 + g.nindir + x < |a|
    ensures var t, j := x / g.nindir, x % g.nindir;
      j < |Second(g, a, t)| && Second(g, a, t)[j] == a[12 + g.nindir + x]
  {
    var t, j := x / g.nindir, x % g.nindir;
    assert x == Mul(t, g.nindir) + j;
  }

  lemma TableIndex(g: Geometry, x: nat, n: nat)
    requires g.nindir > 0 && x < Mul(n, g.nindir)
    ensures x / g.nindir < n
  {
    var t := x / g.nindir;
    assert x == Mul(t, g.nindir) + x % g.nindir;
    if t >= n {
      MulOrder(n, t, g.nindir);
      assert false;
    }
  }

  // --- a file ----------------------------------------------------------------------------

  /** Block k of a file of bytes f: zeros for a hole, else on the image at its address. */
  predicate BlockLies(img: seq<u8>, g: Geometry, f: seq<u8>, addr: u32, k: nat) {
    MulNat(k, g.bsize);
    var lo, hi := Least(Mul(k, g.bsize), |f|), Least(Mul(k, g.bsize) + g.bsize, |f|);
    if addr == 0 then forall o :: lo <= o < hi ==> f[o] == 0
    else Mul(addr, g.fsize) >= 0 && Lies(img, Mul(addr, g.fsize), f[lo..hi])
  }

  /** A file laid out: its inode maps the addresses of its blocks, and each block is at
      its address. */
  predicate LaidOut(img: seq<u8>, g: Geometry, i: Inode, f: seq<u8>, a: seq<u32>, tables: seq<u32>) {
    |f| == i.size && |f| <= Mul(|a|, g.bsize) && Mapped(img, g, i, a, tables) &&
    forall k: nat :: k < |a| ==> BlockLies(img, g, f, a[k], k)
  }

  /** Every byte of it is read back. */
  lemma FileReadsBack(img: seq<u8>, g: Geometry, i: Inode, f: seq<u8>, a: seq<u32>, tables: seq<u32>, o: u32)
    requires Usable(g) && |img| < TWO32 && LaidOut(img, g, i, f, a, tables) && o < |f|
    ensures FileByte(img, g, i, o) == f[o]
  {
    hide Bmap, Mapped, Mul, BlockLies, FragByte, ImageByte;
    var k := o / g.bsize;
    QuotientLess(o, g.bsize);
    BlockOf(o, g.bsize, |a|);
    AddressFound(img, g, i, a, tables, k);
    BlockReads(img, g, f, a[k], k, o);
  }

  /** A byte of a block that lies on the image, or of a hole. */
  lemma BlockReads(img: seq<u8>, g: Geometry, f: seq<u8>, addr: u32, k: nat, o: nat)
    requires BlockLies(img, g, f, addr, k) && |img| < TWO32
    requires o < |f| && Mul(k, g.bsize) <= o < Mul(k, g.bsize) + g.bsize
    ensures addr == 0 ==> f[o] == 0
    ensures addr != 0 ==> ImageByte(img, FragByte(g, addr) + (o - Mul(k, g.bsize))) == f[o]
  {
    hide Mul;
    var lo, hi := Mul(k, g.bsize), Least(Mul(k, g.bsize) + g.bsize, |f|);
    if addr != 0 {
      MulNat(addr, g.fsize);
      LiesAt(img, Mul(addr, g.fsize), f[lo..hi], o - lo);
      assert f[lo..hi][o - lo] == f[o];
    }
  }

  lemma LiesAt(img: seq<u8>, at: nat, b: seq<u8>, j: nat)
    requires Lies(img, at, b) && j < |b|
    ensures at + j < |img| && img[at + j] == b[j]
  {
    assert img[at..at + |b|][j] == img[at + j];
  }

  /** Past the end of the image there are only holes and zeros: an address there is
      that of a block of zeros, and a block of addresses there has none. */
  lemma PastTheEnd(img: seq<u8>, g: Geometry, i: Inode, o: u32, blk: u32, idx: u32)
    requires Usable(g) && Shaped(i)
    requires FragByte(g, Bmap(img, g, i.db, i.ib, BlockNumber(g, o))) >= |img|
    ensures FileByte(img, g, i, o) == 0
    ensures Wrap(FragByte(g, blk) + Wrap(4 * idx)) + 4 > |img| ==> Indirect(img, g, blk, idx) == 0
  {
    hide Bmap, Mul;
  }

  function BlockNumber(g: Geometry, o: u32): u32
    requires Usable(g)
  {
    QuotientLess(o, g.bsize);
    o / g.bsize
  }

  /** An inode and a file written are what the reader loads. */
  lemma FileLoads(img: seq<u8>, g: Geometry, ino: u32, i: Inode, gaps: Gaps, f: seq<u8>,
                  a: seq<u32>, tables: seq<u32>, junk: nat -> u8)
    requires Usable(g) && |img| < TWO32 && Shaped(i)
    requires Lies(img, DinodeByte(g, ino), InodeBytes(i, gaps)) && LaidOut(img, g, i, f, a, tables)
    requires |f| + g.bsize <= TWO32
    ensures InodeOf(img, g, ino) == i && Content(img, g, i, junk) == f
  {
    hide InodeBytes, Lies, LaidOut, FileByte, DinodeByte;
    InodeRoundTrip(img, DinodeByte(g, ino), i, gaps);
    SizeOf(img, g, i, f, a, tables);
    forall o | 0 <= o < |f| ensures Content(img, g, i, junk)[o] == f[o] {
      FileReadsBack(img, g, i, f, a, tables, o);
    }
  }

  lemma SizeOf(img: seq<u8>, g: Geometry, i: Inode, f: seq<u8>, a: seq<u32>, tables: seq<u32>)
    requires LaidOut(img, g, i, f, a, tables)
    ensures |f| == i.size
  {
  }

  /** A directory written is one the walk follows. */
  lemma DirectoryHeld(img: seq<u8>, g: Geometry, ino: u32, i: Inode, gaps: Gaps, es: seq<Entry>,
                      a: seq<u32>, tables: seq<u32>, junk: nat -> u8)
    requires Usable(g) && |img| < TWO32 && Shaped(i)
    requires And(i.mode, 0xF000) == 0x4000 && forall k :: 0 <= k < |es| ==> Fits(es[k])
    requires Lies(img, DinodeByte(g, ino), InodeBytes(i, gaps)) && LaidOut(img, g, i, DirBytes(es), a, tables)
    requires |DirBytes(es)| + g.bsize <= TWO32
    ensures Holds(img, g, junk, ino, es)
  {
    hide InodeBytes, Lies, LaidOut, DirBytes, Content, InodeOf, DinodeByte, And;
    FileLoads(img, g, ino, i, gaps, DirBytes(es), a, tables, junk);
    DirectoryBits(i);
  }

  /** A directory is one whose mode has the directory format. */
  lemma DirectoryBits(i: Inode)
    ensures IsDir(i) <==> And(i.mode, 0xF000) == 0x4000
  {
    hide And;
    HighNibble(i.mode);
    DivModUnique(0x4000, 0x1000, 4, 0);
  }

  lemma HighNibble(x: u16)
    ensures And(x, 0xF000) == x / 0x1000 * 0x1000
  {
    hide And;
    Pow2Twelve();
    AndHigh(x, 12);
    AndLow(x, Not(0xFFF), 16);
    assert x == 0x1000 * (x / 0x1000) + x % 0x1000;
  }

  lemma Pow2Twelve()
    ensures Pow2(12) == 0x1000 && Pow2(16) == 0x1_0000
  {
    assert Pow2(4) == 16;
    Pow2Add(4, 4);
    Pow2Add(8, 4);
    Pow2Add(8, 8);
  }

  lemma BlockOf(o: nat, bsize: nat, n: nat)
    requires bsize > 0 && o < Mul(n, bsize)
    ensures o / bsize < n && Mul(o / bsize, bsize) + o % bsize == o && 0 <= Mul(o / bsize, bsize)
  {
    var t := o / bsize;
    assert o == Mul(t, bsize) + o % bsize;
    MulNat(t, bsize);
    if t >= n {
      MulOrder(n, t, bsize);
      assert false;
    }
  }
}
