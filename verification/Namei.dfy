/** Path names of the file system reader: components, directory entries and the
    walk from the root. */
module Namei {
  import opened Words
  import opened Memory
  import opened Ffs

  const SLASH: u8 := 47
  const ROOT: u32 := 2
  const NAME_MAX: nat := 255

  // --- components ------------------------------------------------------------------

  function Skip(p: seq<u8>): (q: seq<u8>)
    ensures |q| <= |p| && (q != [] ==> q[0] != SLASH)
  {
    if p == [] || p[0] != SLASH then p else Skip(p[1..])
  }

  /** Length of the leading name, cut off at max. */
  function Run(p: seq<u8>, max: nat): (n: nat)
    ensures n <= |p| && n <= max
    ensures p != [] && p[0] != SLASH && max > 0 ==> n > 0
    decreases max
  {
    if p == [] || p[0] == SLASH || max == 0 then 0 else 1 + Run(p[1..], max - 1)
  }

  function Components(p: seq<u8>): seq<seq<u8>>
    decreases |p|
  {
    var q := Skip(p);
    if q == [] then [] else [q[..Run(q, NAME_MAX)]] + Components(q[Run(q, NAME_MAX)..])
  }

  datatype Leg = Leg(slashes: nat, name: seq<u8>)

  predicate Name(s: seq<u8>) { 0 < |s| <= NAME_MAX && SLASH !in s }

  function Repeat(n: nat, b: u8): seq<u8> { if n == 0 then [] else [b] + Repeat(n - 1, b) }

  function PathOf(legs: seq<Leg>, trailing: nat): seq<u8> {
    if legs == [] then Repeat(trailing, SLASH)
    else Repeat(legs[0].slashes, SLASH) + legs[0].name + PathOf(legs[1..], trailing)
  }

  function Names(legs: seq<Leg>): seq<seq<u8>> {
    if legs == [] then [] else [legs[0].name] + Names(legs[1..])
  }

  lemma {:induction false} SkipRepeat(n: nat, p: seq<u8>)
    requires p == [] || p[0] != SLASH
    ensures Skip(Repeat(n, SLASH) + p) == p
    decreases n
  {
    if n == 0 {
      assert Repeat(n, SLASH) + p == p;
    } else {
      assert (Repeat(n, SLASH) + p)[1..] == Repeat(n - 1, SLASH) + p;
      SkipRepeat(n - 1, p);
    }
  }

  lemma {:induction false} RunName(s: seq<u8>, rest: seq<u8>, max: nat)
    requires |s| <= max && SLASH !in s && (rest == [] || rest[0] == SLASH)
    ensures Run(s + rest, max) == |s|
    decreases |s|
  {
    if s == [] {
      assert s + rest == rest;
    } else {
      assert (s + rest)[1..] == s[1..] + rest;
      RunName(s[1..], rest, max - 1);
    }
  }

  /** Names between any runs of slashes come back as they were. */
  lemma {:induction false} ComponentsOfPath(legs: seq<Leg>, trailing: nat)
    requires forall i :: 0 <= i < |legs| ==> Name(legs[i].name)
    requires forall i :: 1 <= i < |legs| ==> legs[i].slashes > 0
    ensures Components(PathOf(legs, trailing)) == Names(legs)
    decreases |legs|
  {
    if legs == [] {
      SkipRepeat(trailing, []);
      assert Repeat(trailing, SLASH) + [] == Repeat(trailing, SLASH);
    } else {
      var s, rest := legs[0].name, PathOf(legs[1..], trailing);
      assert PathOf(legs, trailing) == Repeat(legs[0].slashes, SLASH) + (s + rest);
      SkipRepeat(legs[0].slashes, s + rest);
      RunName(s, rest, NAME_MAX);
      assert (s + rest)[..|s|] == s && (s + rest)[|s|..] == rest;
      ComponentsOfPath(legs[1..], trailing);
    }
  }

  /** As one writes it: 47 is the slash. */
  lemma SlashSeparates(a: seq<u8>, b: seq<u8>)
    requires 0 < |a| <= 255 && 0 < |b| <= 255 && 47 !in a && 47 !in b
    ensures Components([47] + a + [47] + b) == [a, b]
  {
    var legs := [Leg(1, a), Leg(1, b)];
    ComponentsOfPath(legs, 0);
    assert legs[1..] == [Leg(1, b)] && [Leg(1, b)][1..] == [];
    assert Repeat(1, 47) == [47] + Repeat(0, 47) == [47];
    assert PathOf([Leg(1, b)], 0) == [47] + b + PathOf([], 0) == [47] + b;
    assert PathOf(legs, 0) == [47] + a + ([47] + b) == [47] + a + [47] + b;
    assert Names(legs) == [a] + Names([Leg(1, b)]) && Names([Leg(1, b)]) == [b] + Names([]);
  }

  /** A name is cut off after 255 bytes, and what is left of it is a name of its own. */
  lemma LongNameSplits(s: seq<u8>)
    requires 255 < |s| <= 510 && SLASH !in s
    ensures Components(s) == [s[..255], s[255..]]
  {
    hide Skip, Run;
    RunLong(s, NAME_MAX);
    PlainSkip(s);
    PlainSkip(s[255..]);
    RunLong(s[255..], NAME_MAX);
    var rest := s[255..];
    assert rest[..|rest|] == rest && rest[|rest|..] == [];
    NothingLeft();
  }

  lemma NothingLeft()
    ensures Components([]) == []
  {
  }

  lemma PlainSkip(s: seq<u8>)
    requires SLASH !in s
    ensures Skip(s) == s
  {
  }

  lemma {:induction false} RunLong(s: seq<u8>, max: nat)
    requires SLASH !in s
    ensures Run(s, max) == if |s| < max then |s| else max
    decreases max
  {
    if s == [] || max == 0 {
    } else {
      RunLong(s[1..], max - 1);
    }
  }

  // --- directories -------------------------------------------------------------------

  /** The inode of the first live entry of this name from an offset on, or 0. */
  function Scan(d: seq<u8>, off: nat, name: seq<u8>): u32
    decreases |d| - off
  {
    if off + 8 > |d| then 0 else
      var ino := Be32(d[off], d[off + 1], d[off + 2], d[off + 3]);
      var reclen := Be16(d[off + 4], d[off + 5]);
      if reclen == 0 then 0
      else if ino != 0 && Be16(d[off + 6], d[off + 7]) == |name| && NameAt(d, off + 8, name) then ino
      else Scan(d, off + reclen, name)
  }

  predicate NameAt(d: seq<u8>, at: nat, name: seq<u8>) {
    at + |name| <= |d| && d[at..at + |name|] == name
  }

  datatype Entry = Entry(ino: u32, name: seq<u8>, pad: nat)

  predicate Fits(e: Entry) { 8 + |e.name| + e.pad < 0x1_0000 }

  function Header(ino: u32, reclen: u16, namlen: u16): (h: seq<u8>)
    ensures |h| == 8
  {
    [Byte(ino, 0), Byte(ino, 1), Byte(ino, 2), Byte(ino, 3),
     reclen / 256, reclen % 256, namlen / 256, namlen % 256]
  }

  function EntryBytes(e: Entry): (b: seq<u8>)
    requires Fits(e)
    ensures |b| == 8 + |e.name| + e.pad
  {
    Header(e.ino, 8 + |e.name| + e.pad, |e.name|) + e.name + seq(e.pad, _ => 0)
  }

  function DirBytes(es: seq<Entry>): seq<u8>
    requires forall i :: 0 <= i < |es| ==> Fits(es[i])
  {
    if es == [] then [] else EntryBytes(es[0]) + DirBytes(es[1..])
  }

  function FirstMatch(es: seq<Entry>, name: seq<u8>): u32 {
    if es == [] then 0
    else if es[0].ino != 0 && es[0].name == name then es[0].ino
    else FirstMatch(es[1..], name)
  }

  lemma HeaderReads(ino: u32, reclen: u16, namlen: u16)
    ensures var h := Header(ino, reclen, namlen);
      Be32(h[0], h[1], h[2], h[3]) == ino && Be16(h[4], h[5]) == reclen && Be16(h[6], h[7]) == namlen
  {
    BytesOfWord(ino);
  }

  lemma ScanEntry(pre: seq<u8>, e: Entry, rest: seq<u8>, name: seq<u8>)
    requires Fits(e)
    ensures Scan(pre + EntryBytes(e) + rest, |pre|, name) ==
      if e.ino != 0 && e.name == name then e.ino
      else Scan(pre + EntryBytes(e) + rest, |pre| + |EntryBytes(e)|, name)
  {
    hide Header, Be32, Be16;
    var h, n := Header(e.ino, 8 + |e.name| + e.pad, |e.name|), |pre|;
    var d := pre + EntryBytes(e) + rest;
    HeaderReads(e.ino, 8 + |e.name| + e.pad, |e.name|);
    assert forall k :: 0 <= k < 8 ==> h[k] == d[n + k];
    assert d[n + 8..n + 8 + |e.name|] == e.name;
  }

  /** Looking a name up in a directory's bytes finds its first live entry. */
  lemma {:induction false} ScanFinds(pre: seq<u8>, es: seq<Entry>, name: seq<u8>)
    requires forall i :: 0 <= i < |es| ==> Fits(es[i])
    ensures Scan(pre + DirBytes(es), |pre|, name) == FirstMatch(es, name)
    decreases |es|
  {
    hide EntryBytes, Scan;
    if es == [] {
      ScanEnd(pre + DirBytes(es), |pre|, name);
    } else {
      var rest := DirBytes(es[1..]);
      assert pre + DirBytes(es) == pre + EntryBytes(es[0]) + rest;
      ScanEntry(pre, es[0], rest, name);
      ScanFinds(pre + EntryBytes(es[0]), es[1..], name);
    }
  }

  /** An entry of no length ends the search, and so does too little of one. */
  lemma ScanStops(d: seq<u8>, off: nat, name: seq<u8>)
    requires off + 8 <= |d| ==> d[off + 4] == 0 && d[off + 5] == 0
    ensures Scan(d, off, name) == 0
  {
  }

  lemma ScanEnd(d: seq<u8>, off: nat, name: seq<u8>)
    requires off >= |d|
    ensures Scan(d, off, name) == 0
  {
  }

  // --- the walk --------------------------------------------------------------------------

  /** A directory's bytes as loaded. */
  function Content(img: seq<u8>, g: Geometry, i: Inode, junk: nat -> u8): seq<u8>
    requires Usable(g) && |i.db| == 12 && |i.ib| == 3
  {
    seq(i.size, o requires 0 <= o < i.size => LoadedByte(img, g, i, junk, o))
  }

  function InodeOf(img: seq<u8>, g: Geometry, ino: u32): (i: Inode)
    requires Usable(g)
    ensures |i.db| == 12 && |i.ib| == 3
  {
    ReadDinode(img, DinodeByte(g, ino))
  }

  predicate IsDir(i: Inode) { i.mode / 0x1000 == 4 }

  function Entered(img: seq<u8>, g: Geometry, junk: nat -> u8, ino: u32, name: seq<u8>): u32
    requires Usable(g)
  {
    Scan(Content(img, g, InodeOf(img, g, ino), junk), 0, name)
  }

  function Walk(img: seq<u8>, g: Geometry, junk: nat -> u8, ino: u32, names: seq<seq<u8>>): Option<u32>
    requires Usable(g)
    decreases |names|
  {
    if names == [] then Some(ino)
    else if !IsDir(InodeOf(img, g, ino)) || Entered(img, g, junk, ino, names[0]) == 0 then None
    else Walk(img, g, junk, Entered(img, g, junk, ino, names[0]), names[1..])
  }

  /** A directory on the image, with its entries. */
  predicate Holds(img: seq<u8>, g: Geometry, junk: nat -> u8, ino: u32, es: seq<Entry>)
    requires Usable(g)
  {
    IsDir(InodeOf(img, g, ino)) && (forall i :: 0 <= i < |es| ==> Fits(es[i])) &&
    Content(img, g, InodeOf(img, g, ino), junk) == DirBytes(es)
  }

  lemma EnteredFinds(img: seq<u8>, g: Geometry, junk: nat -> u8, ino: u32, es: seq<Entry>, name: seq<u8>)
    requires Usable(g) && Holds(img, g, junk, ino, es)
    ensures IsDir(InodeOf(img, g, ino)) && Entered(img, g, junk, ino, name) == FirstMatch(es, name)
  {
    hide Content, InodeOf, DirBytes, FirstMatch, IsDir, Scan;
    ScanFinds([], es, name);
    assert [] + DirBytes(es) == DirBytes(es);
  }

  /** Following a path through directories arrives where their entries lead. */
  lemma {:induction false} WalkFollows(img: seq<u8>, g: Geometry, junk: nat -> u8,
                                       inos: seq<u32>, dirs: seq<seq<Entry>>, names: seq<seq<u8>>)
    requires Usable(g) && |inos| == |names| + 1 && |dirs| == |names|
    requires forall k :: 0 <= k < |names| ==> Holds(img, g, junk, inos[k], dirs[k])
    requires forall k :: 0 <= k < |names| ==> FirstMatch(dirs[k], names[k]) == inos[k + 1] != 0
    ensures Walk(img, g, junk, inos[0], names) == Some(inos[|names|])
    decreases |names|
  {
    hide InodeOf, FirstMatch, IsDir, Entered, Holds;
    if names == [] {
    } else {
      assert Holds(img, g, junk, inos[0], dirs[0]);
      EnteredFinds(img, g, junk, inos[0], dirs[0], names[0]);
      var ks, ds, ns := inos[1..], dirs[1..], names[1..];
      forall k {:trigger ds[k]} | 0 <= k < |ns|
        ensures Holds(img, g, junk, ks[k], ds[k]) && FirstMatch(ds[k], ns[k]) == ks[k + 1] != 0
      {
        assert Holds(img, g, junk, inos[k + 1], dirs[k + 1]);
        assert FirstMatch(dirs[k + 1], names[k + 1]) == inos[k + 2] != 0;
      }
      WalkFollows(img, g, junk, ks, ds, ns);
    }
  }

  /** No inode exactly when no live entry has the name; otherwise that of the first. */
  lemma {:induction false} FirstMatchIs(es: seq<Entry>, name: seq<u8>)
    ensures FirstMatch(es, name) == 0 <==> forall i :: 0 <= i < |es| && es[i].name == name ==> es[i].ino == 0
    ensures FirstMatch(es, name) != 0 ==>
      exists i :: 0 <= i < |es| && es[i].name == name && es[i].ino == FirstMatch(es, name) &&
        forall j :: 0 <= j < i && es[j].name == name ==> es[j].ino == 0
    decreases |es|
  {
    if es == [] || (es[0].ino != 0 && es[0].name == name) {
    } else {
      var rest := es[1..];
      FirstMatchIs(rest, name);
      forall i | 0 <= i < |rest| ensures rest[i] == es[i + 1] { }
      if FirstMatch(rest, name) != 0 {
        var i :| 0 <= i < |rest| && rest[i].name == name && rest[i].ino == FirstMatch(rest, name) &&
          forall j :: 0 <= j < i && rest[j].name == name ==> rest[j].ino == 0;
        assert es[i + 1].name == name;
        forall j | 0 <= j < i + 1 && es[j].name == name ensures es[j].ino == 0 {
          if j > 0 { assert rest[j - 1].name == name; }
        }
      } else {
        forall i | 0 <= i < |es| && es[i].name == name ensures es[i].ino == 0 {
          if i > 0 { assert rest[i - 1].name == name; }
        }
      }
    }
  }

  /** A path that meets something that is no directory, or a name its directory does
      not have, leads nowhere. */
  lemma {:induction false} WalkStops(img: seq<u8>, g: Geometry, junk: nat -> u8,
                                     inos: seq<u32>, dirs: seq<seq<Entry>>, names: seq<seq<u8>>, k: nat)
    requires Usable(g) && k < |names| && |inos| == k + 1 && |dirs| == k + 1
    requires forall j :: 0 <= j < k ==> Holds(img, g, junk, inos[j], dirs[j])
    requires forall j :: 0 <= j < k ==> FirstMatch(dirs[j], names[j]) == inos[j + 1] != 0
    requires IsDir(InodeOf(img, g, inos[k])) ==>
      Holds(img, g, junk, inos[k], dirs[k]) && FirstMatch(dirs[k], names[k]) == 0
    ensures Walk(img, g, junk, inos[0], names) == None
    decreases k
  {
    hide InodeOf, FirstMatch, IsDir, Entered, Holds;
    if k == 0 {
      if IsDir(InodeOf(img, g, inos[0])) { EnteredFinds(img, g, junk, inos[0], dirs[0], names[0]); }
    } else {
      assert Holds(img, g, junk, inos[0], dirs[0]);
      EnteredFinds(img, g, junk, inos[0], dirs[0], names[0]);
      var ks, ds, ns := inos[1..], dirs[1..], names[1..];
      forall j {:trigger ds[j]} | 0 <= j < k - 1
        ensures Holds(img, g, junk, ks[j], ds[j]) && FirstMatch(ds[j], ns[j]) == ks[j + 1] != 0
      {
        assert Holds(img, g, junk, inos[j + 1], dirs[j + 1]);
        assert FirstMatch(dirs[j + 1], names[j + 1]) == inos[j + 2] != 0;
      }
      WalkStops(img, g, junk, ks, ds, ns, k - 1);
    }
  }

  method FindIn(dir: array<u8>, name: seq<u8>) returns (found: u32)
    ensures found == Scan(dir[..], 0, name)
  {
    hide Be32, Be16;
    var off := 0;
    while off + 8 <= dir.Length
      invariant 0 <= off && Scan(dir[..], off, name) == Scan(dir[..], 0, name)
      decreases dir.Length - off
    {
      var ino := Be32(dir[off], dir[off + 1], dir[off + 2], dir[off + 3]);
      var reclen := Be16(dir[off + 4], dir[off + 5]);
      if reclen == 0 { return 0; }
      if ino != 0 && Be16(dir[off + 6], dir[off + 7]) == |name| && NameAt(dir[..], off + 8, name) { return ino; }
      off := off + reclen;
    }
    found := 0;
  }

  method SkipSlashes(p: seq<u8>) returns (q: seq<u8>)
    ensures q == Skip(p)
  {
    q := p;
    while q != [] && q[0] == SLASH
      invariant Skip(p) == Skip(q)
      decreases |q|
    {
      q := q[1..];
    }
  }

  lemma RunStep(q: seq<u8>, n: nat, max: nat)
    requires n <= |q|
    ensures Run(q[n..], max) ==
      if n < |q| && q[n] != SLASH && max > 0 then 1 + Run(q[n + 1..], max - 1) else 0
  {
    if n < |q| { assert q[n..][1..] == q[n + 1..]; }
  }

  /** Cut the next component off a path; an empty one means there is none. */
  method Cut(p: seq<u8>) returns (name: seq<u8>, rest: seq<u8>)
    ensures Skip(p) == [] ==> name == []
    ensures Skip(p) != [] ==> var q := Skip(p); name == q[..Run(q, NAME_MAX)] != [] && rest == q[Run(q, NAME_MAX)..]
  {
    hide Skip, Run;
    var q := SkipSlashes(p);
    var n := 0;
    assert q[0..] == q;
    while n < |q| && q[n] != SLASH && n < NAME_MAX
      invariant n <= |q| && n <= NAME_MAX && Run(q, NAME_MAX) == n + Run(q[n..], NAME_MAX - n)
    {
      RunStep(q, n, NAME_MAX - n);
      n := n + 1;
    }
    RunStep(q, n, NAME_MAX - n);
    name, rest := q[..n], q[n..];
  }

  /** Resolve a path from the root. */
  method Lookup(img: seq<u8>, g: Geometry, path: seq<u8>, junk: nat -> u8) returns (r: Option<u32>)
    requires Usable(g)
    ensures r == Walk(img, g, junk, 2, Components(path))
  {
    hide ReadDinode, DinodeByte, LoadedByte, Scan, Skip, Run;
    var ino := ROOT;
    var p := path;
    while true
      invariant Walk(img, g, junk, ino, Components(p)) == Walk(img, g, junk, ROOT, Components(path))
      decreases |p|
    {
      var name, rest := Cut(p);
      if name == [] { return Some(ino); }
      CutShorter(p);
      var i, buf := ReadIno(img, g, ino, junk);
      assert i == InodeOf(img, g, ino);
      if i.mode / 0x1000 != 4 { return None; }
      var found := FindIn(buf, name);
      assert buf[..] == Content(img, g, i, junk);
      if found == 0 { return None; }
      ino, p := found, rest;
    }
  }

  lemma CutShorter(p: seq<u8>)
    requires Skip(p) != []
    ensures var q := Skip(p); var n := Run(q, NAME_MAX);
      |q[n..]| < |p| && Components(p) == [q[..n]] + Components(q[n..])
  {
  }
}
