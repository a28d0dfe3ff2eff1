/** The synthetic Sun disk label: geometry that follows the file, a checksum that
    folds to zero, and a rewrite only when the label describes another disk. */
module DiskLabel {
  import opened Words
  import opened Memory

  const SECTORS: nat := 63
  const HEADS: nat := 16
  const PER_CYL: nat := 1008

  // --- the label as bytes --------------------------------------------------------

  /** Cylinders of a file of this many bytes: at least one, at most 65535. */
  function Cylinders(size: nat): (n: u16)
    ensures 1 <= n
  {
    var n := Wrap(size / 512) / PER_CYL;
    if n == 0 then 1 else if n > 0xFFFF then 0xFFFF else n
  }

  function Blocks(size: nat): nat { Cylinders(size) * HEADS * SECTORS }

  predicate IsAscii(s: string) { forall i :: 0 <= i < |s| ==> s[i] as int < 128 }

  function Ascii(s: string): (b: seq<u8>)
    requires IsAscii(s)
    ensures |b| == |s| && forall i :: 0 <= i < |s| ==> b[i] == s[i] as int
  {
    seq(|s|, i requires 0 <= i < |s| => s[i] as int)
  }

  function Decimal(n: nat): seq<u8> {
    if n < 10 then [48 + n] else Decimal(n / 10) + [48 + n % 10]
  }

  function Text(ncyl: u16): seq<u8> {
    Ascii("BBN emulated disk cyl ") + Decimal(ncyl) + Ascii(" alt 0 hd 16 sec 63")
  }

  lemma {:induction false} DecimalDigits(n: nat, d: nat)
    requires d > 0 && n < Pow10(d)
    ensures |Decimal(n)| <= d
    decreases d
  {
    if n < 10 {
    } else {
      DecimalDigits(n / 10, d - 1);
    }
  }

  function Pow10(d: nat): nat { if d == 0 then 1 else 10 * Pow10(d - 1) }

  lemma TextFits(ncyl: u16)
    ensures |Text(ncyl)| < 128
  {
    assert Pow10(5) == 100000;
    DecimalDigits(ncyl, 5);
  }

  /** The halfword at an even offset, but for text and checksum. */
  function Field(ncyl: u16, o: nat): u16 {
    var blocks := ncyl * PER_CYL;
    if o == 0x1A4 then 3600
    else if o == 0x1A6 || o == 0x1B0 then ncyl
    else if o == 0x1B4 then HEADS
    else if o == 0x1B6 then SECTORS
    else if o == 0x1C8 || o == 0x1D0 then blocks / 0x1_0000
    else if o == 0x1CA || o == 0x1D2 then blocks % 0x1_0000
    else if o == 0x1FC then 0xDABE
    else 0
  }

  function Half(s: seq<u8>, o: nat): u16
    requires o + 1 < |s|
  {
    Be16(s[o], s[o + 1])
  }

  function High(v: u16): u8 { v / 256 }

  function Low(v: u16): u8 { v % 256 }

  /** The byte at an offset below the checksum. */
  function LabelByte(ncyl: u16, o: nat): u8 {
    var text := Text(ncyl);
    if o < |text| then text[o]
    else FieldByte(ncyl, o)
  }

  function FieldByte(ncyl: u16, o: nat): u8 {
    if o % 2 == 0 then High(Field(ncyl, o)) else Low(Field(ncyl, o - 1))
  }

  /** The first n halfwords folded together. */
  function XorFold(s: seq<u8>, n: nat): u16
    requires 2 * n <= |s|
  {
    if n == 0 then 0 else Xor16(XorFold(s, n - 1), Half(s, 2 * (n - 1)))
  }

  function Xor16(a: u16, b: u16): u16 { XorRange(a, b); Xor(a, b) }

  lemma XorRange(a: u16, b: u16)
    ensures 0 <= Xor(a, b) < 0x1_0000
  {
    assert Pow2(16) == 0x1_0000 by { Pow2Add(8, 8); assert Pow2(8) == 256; }
    BitwiseRange(a, b, 16);
  }

  lemma {:induction false} XorSelf(a: nat)
    ensures Xor(a, a) == 0
    decreases a
  {
    if a == 0 {
    } else {
      XorSelf(a / 2);
    }
  }

  lemma {:induction false} FoldPrefix(s: seq<u8>, t: seq<u8>, n: nat)
    requires 2 * n <= |s| && 2 * n <= |t| && s[..2 * n] == t[..2 * n]
    ensures XorFold(s, n) == XorFold(t, n)
    decreases n
  {
    if n == 0 {
    } else {
      assert s[..2 * n][..2 * (n - 1)] == s[..2 * (n - 1)];
      assert t[..2 * n][..2 * (n - 1)] == t[..2 * (n - 1)];
      FoldPrefix(s, t, n - 1);
      assert s[..2 * n][2 * n - 2] == s[2 * n - 2] && s[..2 * n][2 * n - 1] == s[2 * n - 1];
    }
  }

  /** A valid label for a geometry: every field, and the checksum that makes all
      256 halfwords fold to zero. */
  predicate IsLabel(s: seq<u8>, ncyl: u16) {
    |s| == 512 && (forall o :: 0 <= o < 510 ==> s[o] == LabelByte(ncyl, o)) && XorFold(s, 256) == 0
  }

  /** Storing the fold of the first 255 halfwords as the last makes the whole
      fold to zero. */
  lemma ChecksumCloses(s: seq<u8>)
    requires |s| == 512 && Half(s, 510) == XorFold(s, 255)
    ensures XorFold(s, 256) == 0
  {
    XorSelf(Half(s, 510));
  }

  /** What the code looks at to decide whether a label describes the file. */
  predicate Describes(s: seq<u8>, ncyl: u16) {
    |s| >= 512 && s[0x1FC] == 0xDA && s[0x1FD] == 0xBE &&
    Half(s, 0x1B0) == ncyl && Half(s, 0x1B4) == HEADS && Half(s, 0x1B6) == SECTORS
  }

  /** A label describes a file exactly when it has the magic number and the three
      numbers of its shape. */
  lemma DescribesIff(s: seq<u8>, size: nat)
    requires |s| >= 512
    ensures Describes(s, Cylinders(size)) <==>
      Half(s, 0x1FC) == 0xDABE && Half(s, 0x1B0) == Cylinders(size) && Half(s, 0x1B4) == 16 && Half(s, 0x1B6) == 63
  {
    hide Cylinders;
    HalfUnique(s[0x1FC], s[0x1FD]);
  }

  lemma HalfUnique(a: u8, b: u8)
    ensures Be16(a, b) == 0xDABE <==> a == 0xDA && b == 0xBE
  {
  }

  /** The fold of halfwords that are all zero but one is that one. */
  lemma {:induction false} FoldOfOne(s: seq<u8>, n: nat, k: nat)
    requires 2 * n <= |s| && forall i :: 0 <= i < n && i != k ==> Half(s, 2 * i) == 0
    ensures XorFold(s, n) == if k < n then Half(s, 2 * k) else 0
    decreases n
  {
    hide Half;
    if n == 0 {
    } else {
      FoldOfOne(s, n - 1, k);
    }
  }

  /** Behind the text, a label's halfwords are its fields. */
  lemma LabelHalf(s: seq<u8>, ncyl: u16, o: nat)
    requires IsLabel(s, ncyl) && 128 <= o < 510 && o % 2 == 0
    ensures Half(s, o) == Field(ncyl, o)
    ensures s[o] == High(Field(ncyl, o)) && s[o + 1] == Low(Field(ncyl, o))
  {
    hide Text, XorFold, Field;
    TextFits(ncyl);
    assert s[o] == LabelByte(ncyl, o) && s[o + 1] == LabelByte(ncyl, o + 1);
  }

  lemma LabelDescribes(s: seq<u8>, ncyl: u16)
    requires IsLabel(s, ncyl)
    ensures Describes(s, ncyl)
  {
    hide Text, XorFold, Half, LabelByte;
    LabelHalf(s, ncyl, 0x1B0);
    LabelHalf(s, ncyl, 0x1B4);
    LabelHalf(s, ncyl, 0x1B6);
    LabelHalf(s, ncyl, 0x1FC);
  }

  // --- the geometry ------------------------------------------------------------------

  /** The label describes no more than the file holds, exactly when the file
      holds a cylinder. */
  lemma BlocksFitIff(size: nat)
    ensures Blocks(size) * 512 <= size <==> size >= PER_CYL * 512
  {
    var n := Wrap(size / 512);
    assert n / PER_CYL * PER_CYL <= n <= size / 512;
  }

  /** A file of one block is described as 1008. */
  lemma SmallFileExample()
    ensures Blocks(512) == 1008
  {
    BlocksFitIff(512);
  }

  /** And for any size a label can describe, less than a cylinder of it is left
      over. */
  lemma BlocksCover(size: nat)
    requires PER_CYL * 512 <= size < 0x1_0000 * PER_CYL * 512
    ensures size - Blocks(size) * 512 < PER_CYL * 512
  {
    assert Wrap(size / 512) == size / 512;
  }

  /** Cylinders in closed form: a file's whole ones, at least one, and 65535 at the
      most. */
  lemma CylindersOf(size: nat)
    requires size < TWO32 * 512
    ensures size < 2 * 516_096 ==> Cylinders(size) == 1
    ensures 516_096 <= size < 65_536 * 516_096 ==>
      Cylinders(size) * 516_096 <= size < (Cylinders(size) + 1) * 516_096
    ensures size >= 65_536 * 516_096 ==> Cylinders(size) == 65_535
  {
    var b := size / 512;
    assert Wrap(b) == b;
    assert b == b / PER_CYL * PER_CYL + b % PER_CYL && size == b * 512 + size % 512;
  }

  /** A big-endian word of a label. */
  function LabelWord(s: seq<u8>, o: nat): u32
    requires o + 3 < |s|
  {
    Be32(s[o], s[o + 1], s[o + 2], s[o + 3])
  }

  /** What a partition editor reads from a label: 3600 rpm, the cylinders twice, 16
      heads of 63 sectors, and two partitions from cylinder 0 on over all the blocks. */
  predicate Reads(s: seq<u8>, n: u16, blocks: nat) {
    && |s| == 512
    && Half(s, 0x1A4) == 3600 && Half(s, 0x1A6) == Half(s, 0x1B0) == n && Half(s, 0x1B2) == 0
    && Half(s, 0x1B4) == 16 && Half(s, 0x1B6) == 63 && s[0x1FC] == 0xDA && s[0x1FD] == 0xBE
    && LabelWord(s, 0x1C4) == LabelWord(s, 0x1CC) == 0 && LabelWord(s, 0x1C8) == LabelWord(s, 0x1D0) == blocks
  }

  lemma LabelReads(s: seq<u8>, size: nat)
    requires IsLabel(s, Cylinders(size))
    ensures Reads(s, Cylinders(size), Blocks(size)) && Blocks(size) == Cylinders(size) * 1008
  {
    hide IsLabel, Half, Be16, Be32, Cylinders, High, Low, LabelWord, LabelByte;
    var n := Cylinders(size);
    LabelLength(s, n);
    LabelHalf(s, n, 0x1A4);
    LabelHalf(s, n, 0x1A6);
    LabelHalf(s, n, 0x1B0);
    LabelHalf(s, n, 0x1B2);
    LabelHalf(s, n, 0x1B4);
    LabelHalf(s, n, 0x1B6);
    LabelHalf(s, n, 0x1FC);
    LabelWordIs(s, n, 0x1C4);
    LabelWordIs(s, n, 0x1C8);
    LabelWordIs(s, n, 0x1CC);
    LabelWordIs(s, n, 0x1D0);
    MagicBytes();
  }

  lemma LabelLength(s: seq<u8>, n: u16)
    requires IsLabel(s, n)
    ensures |s| == 512
  {
    hide LabelByte, XorFold;
  }

  lemma LabelWordIs(s: seq<u8>, n: u16, o: nat)
    requires IsLabel(s, n) && 128 <= o < 507 && o % 2 == 0
    ensures |s| == 512 && LabelWord(s, o) == 0x1_0000 * Field(n, o) + Field(n, o + 2)
  {
    hide Field, LabelByte, XorFold, High, Low, IsLabel;
    LabelLength(s, n);
    LabelHalf(s, n, o);
    LabelHalf(s, n, o + 2);
    BigFour(s[o], s[o + 1], s[o + 2], s[o + 3]);
  }

  lemma MagicBytes()
    ensures High(0xDABE) == 0xDA && Low(0xDABE) == 0xBE
  {
  }

  /** A string of digits as a number. */
  function Number(s: seq<u8>): int { if s == [] then 0 else 10 * Number(s[..|s| - 1]) + s[|s| - 1] - 48 }

  lemma {:induction false} DecimalReads(n: nat)
    ensures Number(Decimal(n)) == n && forall i :: 0 <= i < |Decimal(n)| ==> 48 <= Decimal(n)[i] <= 57
    ensures n >= 10 ==> Decimal(n)[0] != 48
    decreases n
  {
    if n < 10 {
      assert [48 + n][..0] == [];
    } else {
      DecimalReads(n / 10);
      assert Decimal(n)[..|Decimal(n)| - 1] == Decimal(n / 10);
    }
  }

  const TITLE: string := "BBN emulated disk cyl "
  const SHAPE: string := " alt 0 hd 16 sec 63"

  /** The title: its words, between them the cylinders in decimal, and a zero. */
  predicate Titled(s: seq<u8>, n: u16, k: nat) {
    && 22 <= k && k + 19 < 128 <= |s| && Number(s[22..k]) == n
    && (forall i :: 0 <= i < 22 ==> s[i] == TITLE[i] as int)
    && (forall i :: 0 <= i < 19 ==> s[k + i] == SHAPE[i] as int) && s[k + 19] == 0
  }

  lemma LabelTitle(s: seq<u8>, n: u16)
    requires IsLabel(s, n)
    ensures Titled(s, n, 22 + |Decimal(n)|)
  {
    hide XorFold, Decimal, Number, LabelByte, IsLabel, Ascii;
    TextFits(n);
    DecimalReads(n);
    LabelText(s, n);
    LabelLength(s, n);
    var k := 22 + |Decimal(n)|;
    var t := Text(n);
    assert t == Ascii(TITLE) + Decimal(n) + Ascii(SHAPE);
    assert s[22..k] == Decimal(n);
  }

  lemma LabelText(s: seq<u8>, n: u16)
    requires IsLabel(s, n)
    ensures |Text(n)| < 128 <= |s| && s[|Text(n)|] == 0
    ensures forall i :: 0 <= i < |Text(n)| ==> s[i] == Text(n)[i]
  {
    hide XorFold, Text, FieldByte;
    TextFits(n);
    FieldGap(n);
    forall i | 0 <= i < |Text(n)| ensures s[i] == Text(n)[i] { assert s[i] == LabelByte(n, i); }
    assert s[|Text(n)|] == LabelByte(n, |Text(n)|);
  }

  // --- the disk ------------------------------------------------------------------------

  /** The image after the label has been seen to. */
  function Labelled(img: seq<u8>, lbl: seq<u8>): seq<u8>
    requires |lbl| == 512
  {
    if |img| >= 512 then lbl + img[512..] else lbl
  }

  class Disk {
    var bytes: seq<u8>

    /** Bring the label in line with the size of the file. */
    method EnsureLabel()
      modifies this
      ensures old(bytes) == [] || Describes(old(bytes), Cylinders(old(|bytes|))) ==> bytes == old(bytes)
      ensures old(bytes) != [] && !Describes(old(bytes), Cylinders(old(|bytes|))) ==>
        |bytes| >= 512 && IsLabel(bytes[..512], Cylinders(old(|bytes|))) &&
        bytes == Labelled(old(bytes), bytes[..512])
    {
      hide IsLabel, Cylinders, Half, Be16, XorFold;
      if |bytes| == 0 { return; }
      var ncyl := Cylinders(|bytes|);
      if |bytes| >= 512 && bytes[0x1FC] == 0xDA && bytes[0x1FD] == 0xBE
         && Half(bytes, 0x1B0) == ncyl && Half(bytes, 0x1B4) == HEADS && Half(bytes, 0x1B6) == SECTORS {
        return;
      }
      var lbl := Build(ncyl);
      bytes := lbl[..] + if |bytes| >= 512 then bytes[512..] else [];
      assert bytes[..512] == lbl[..];
    }
  }

  method Put16(lbl: array<u8>, o: nat, v: u16)
    requires o + 1 < lbl.Length
    modifies lbl
    ensures lbl[..] == old(lbl[..])[o := High(v)][o + 1 := Low(v)]
  {
    lbl[o] := v / 256;
    lbl[o + 1] := v % 256;
  }

  lemma FourBytes(v: u32)
    ensures High(v / 0x1_0000) == v / 0x100_0000
    ensures Low(v / 0x1_0000) == v / 0x1_0000 % 256
    ensures High(v % 0x1_0000) == v / 256 % 256
    ensures Low(v % 0x1_0000) == v % 256
  {
    var d, t := v % 256, v / 256;
    var c, u := t % 256, t / 256;
    var b, a := u % 256, u / 256;
    DivModUnique(v, 0x1_0000, u, 256 * c + d);
    DivModUnique(v, 0x100_0000, a, 0x1_0000 * b + 256 * c + d);
    DivModUnique(256 * c + d, 256, c, d);
  }

  method Put32(lbl: array<u8>, o: nat, v: u32)
    requires o + 3 < lbl.Length
    modifies lbl
    ensures lbl[..] == old(lbl[..])[o := High(v / 0x1_0000)][o + 1 := Low(v / 0x1_0000)]
      [o + 2 := High(v % 0x1_0000)][o + 3 := Low(v % 0x1_0000)]
  {
    hide High, Low;
    FourBytes(v);
    lbl[o] := v / 0x100_0000;
    lbl[o + 1] := v / 0x1_0000 % 256;
    lbl[o + 2] := v / 256 % 256;
    lbl[o + 3] := v % 256;
  }

  method PutText(lbl: array<u8>, text: seq<u8>)
    requires |text| <= lbl.Length
    modifies lbl
    ensures forall o :: 0 <= o < lbl.Length ==> lbl[o] == if o < |text| then text[o] else old(lbl[o])
  {
    for i := 0 to |text|
      invariant forall o :: 0 <= o < lbl.Length ==> lbl[o] == if o < i then text[o] else old(lbl[o])
    {
      lbl[i] := text[i];
    }
  }

  method PutShape(lbl: array<u8>, ncyl: u16)
    requires lbl.Length == 512 && forall o :: 0x1A4 <= o < 0x1C4 ==> lbl[o] == 0
    modifies lbl
    ensures forall o :: 0 <= o < 512 ==> lbl[o] == if 0x1A4 <= o < 0x1C4 then FieldByte(ncyl, o) else old(lbl[o])
  {
    hide High, Low;
    NoneSet();
    Put16(lbl, 0x1A4, 3600);
    Put16(lbl, 0x1A6, ncyl);
    Put16(lbl, 0x1B0, ncyl);
    Put16(lbl, 0x1B2, 0);
    Put16(lbl, 0x1B4, HEADS);
    Put16(lbl, 0x1B6, SECTORS);
  }

  lemma NoneSet()
    ensures High(0) == 0 && Low(0) == 0
  {
  }

  method PutPartitions(lbl: array<u8>, ncyl: u16)
    requires lbl.Length == 512 && forall o :: 0x1C4 <= o < 0x1FE ==> lbl[o] == 0
    modifies lbl
    ensures forall o :: 0 <= o < 512 ==> lbl[o] == if 0x1C4 <= o < 0x1FE then FieldByte(ncyl, o) else old(lbl[o])
  {
    hide High, Low;
    NoneSet();
    var blocks: u32 := ncyl * HEADS * SECTORS;
    Put32(lbl, 0x1C4, 0);
    Put32(lbl, 0x1C8, blocks);
    Put32(lbl, 0x1CC, 0);
    Put32(lbl, 0x1D0, blocks);
    Put16(lbl, 0x1FC, 0xDABE);
  }

  /** A fresh label for a geometry. */
  method Build(ncyl: u16) returns (lbl: array<u8>)
    ensures fresh(lbl) && lbl.Length == 512 && IsLabel(lbl[..], ncyl)
  {
    hide Text, XorFold, Half, FieldByte, High, Low;
    TextFits(ncyl);
    lbl := new u8[512](_ => 0);
    PutText(lbl, Text(ncyl));
    PutShape(lbl, ncyl);
    PutPartitions(lbl, ncyl);
    FieldGap(ncyl);
    var ck := Checksum(lbl);
    ghost var s := lbl[..];
    Put16(lbl, 0x1FE, ck);
    Closing(s, lbl[..], ck);
  }

  lemma FieldGap(ncyl: u16)
    ensures forall o :: 0 <= o < 0x1A4 ==> FieldByte(ncyl, o) == 0
  {
  }

  lemma Closing(s: seq<u8>, t: seq<u8>, ck: u16)
    requires |s| == 512 && t == s[510 := High(ck)][511 := Low(ck)] && ck == XorFold(s, 255)
    ensures XorFold(t, 256) == 0
  {
    hide XorFold;
    FoldPrefix(s, t, 255);
    ChecksumCloses(t);
  }

  method Checksum(lbl: array<u8>) returns (ck: u16)
    requires lbl.Length == 512
    ensures ck == XorFold(lbl[..], 255)
  {
    hide Xor16;
    ck := 0;
    for i := 0 to 255
      invariant ck == XorFold(lbl[..], i)
    {
      ck := Xor16(ck, Half(lbl[..], 2 * i));
    }
  }

  lemma SmallFile(size: nat)
    requires size <= 512
    ensures Cylinders(size) == 1
  {
  }

  /** A second look changes nothing, though writing may have grown the file: the
      label written describes the file it is now in. */
  lemma SecondCallIdle(img: seq<u8>, lbl: seq<u8>)
    requires img != [] && IsLabel(lbl, Cylinders(|img|))
    ensures Describes(Labelled(img, lbl), Cylinders(|Labelled(img, lbl)|))
  {
    hide LabelByte, XorFold, Cylinders;
    LabelDescribes(lbl, Cylinders(|img|));
    if |img| < 512 {
      SmallFile(|img|);
      SmallFile(512);
    }
  }
}
