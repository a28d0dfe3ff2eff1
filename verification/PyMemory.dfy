/** The reference interpreter's sparse paged memory, read and written a page
    stretch at a time, holds the flat store its semantics is stated over. */
module PyMemory {
  import opened Words
  import opened Memory
  import R = Reference

  lemma {:induction false} PutBytesAt(m: Store, a: int, bs: seq<u8>, c: int)
    ensures Rd(R.PutBytes(m, a, bs), c) == if a <= c < a + |bs| then bs[c - a] else Rd(m, c)
    decreases |bs|
  {
    if bs == [] {
    } else {
      PutBytesAt(m[a := bs[0]], a + 1, bs[1..], c);
    }
  }

  class SparseMemory {
    var pages: map<int, seq<u8>>

    constructor ()
      ensures Valid() && Holds(map[])
    {
      pages := map[];
    }

    ghost predicate Valid()
      reads this
    {
      forall i :: i in pages ==> |pages[i]| == 4096
    }

    ghost function ByteAt(c: int): u8
      requires Valid()
      reads this
    {
      if c / 4096 in pages then pages[c / 4096][c % 4096] else 0
    }

    ghost predicate Holds(m: Store)
      requires Valid()
      reads this
    {
      forall c: nat :: ByteAt(c) == Rd(m, c)
    }

    method Page(addr: nat, ghost m: Store) returns (p: seq<u8>)
      requires Valid() && Holds(m)
      modifies this
      ensures Valid() && Holds(m)
      ensures addr / 4096 in pages && p == pages[addr / 4096] && |p| == 4096
    {
      if addr / 4096 !in pages {
        ghost var was := pages;
        pages := pages[addr / 4096 := seq(4096, _ => 0)];
        forall c: nat ensures ByteAt(c) == Rd(m, c) {
          assert (if c / 4096 in was then was[c / 4096][c % 4096] else 0) == Rd(m, c);
        }
      }
      p := pages[addr / 4096];
    }

    method Read(addr: nat, n: nat, ghost m: Store) returns (out: seq<u8>)
      requires Valid() && Holds(m)
      modifies this
      ensures Valid() && Holds(m)
      ensures |out| == n && forall i :: 0 <= i < n ==> out[i] == Rd(m, addr + i)
    {
      out := [];
      var at: nat, left: nat := addr, n;
      while left > 0
        invariant Valid() && Holds(m)
        invariant at == addr + |out| && left == n - |out|
        invariant forall i :: 0 <= i < |out| ==> out[i] == Rd(m, addr + i)
        decreases left
      {
        var off := at % 4096;
        var take := if left < 4096 - off then left else 4096 - off;
        var p := Page(at, m);
        var chunk := p[off..off + take];
        forall k | 0 <= k < take ensures chunk[k] == Rd(m, at + k) {
          InPage(at, k);
          assert ByteAt(at + k) == Rd(m, at + k);
        }
        out := out + chunk;
        at, left := at + take, left - take;
      }
    }

    method Write(addr: nat, data: seq<u8>, ghost m: Store)
      requires Valid() && Holds(m)
      modifies this
      ensures Valid() && Holds(R.PutBytes(m, addr, data))
    {
      var i: nat := 0;
      while i < |data|
        invariant i <= |data| && Valid()
        invariant Holds(R.PutBytes(m, addr, data[..i]))
      {
        ghost var now := R.PutBytes(m, addr, data[..i]);
        var at := addr + i;
        var off := at % 4096;
        var take := if |data| - i < 4096 - off then |data| - i else 4096 - off;
        WriteStretch(at, data[i..i + take], now);
        ghost var next := R.PutBytes(m, addr, data[..i + take]);
        forall c: nat ensures ByteAt(c) == Rd(next, c) {
          PutBytesAt(m, addr, data[..i], c);
          PutBytesAt(m, addr, data[..i + take], c);
          PutBytesAt(now, at, data[i..i + take], c);
        }
        i := i + take;
      }
      assert data[..i] == data;
    }

    /** A stretch that stays inside one page. */
    method WriteStretch(at: nat, chunk: seq<u8>, ghost m: Store)
      requires Valid() && Holds(m) && at % 4096 + |chunk| <= 4096
      modifies this
      ensures Valid() && Holds(R.PutBytes(m, at, chunk))
    {
      var off := at % 4096;
      var p := Page(at, m);
      p := p[..off] + chunk + p[off + |chunk|..];
      ghost var was := pages;
      pages := pages[at / 4096 := p];
      forall c: nat ensures ByteAt(c) == Rd(R.PutBytes(m, at, chunk), c) {
        PutBytesAt(m, at, chunk, c);
        assert (if c / 4096 in was then was[c / 4096][c % 4096] else 0) == Rd(m, c);
        if at <= c < at + |chunk| { InPage(at, c - at); }
        if c / 4096 == at / 4096 { SamePageOffsets(at, c); }
      }
    }
  }

  lemma InPage(at: nat, k: nat)
    requires at % 4096 + k < 4096
    ensures (at + k) / 4096 == at / 4096 && (at + k) % 4096 == at % 4096 + k
  {
  }

  lemma SamePageOffsets(at: nat, c: nat)
    requires at / 4096 == c / 4096
    ensures c % 4096 - at % 4096 == c - at
  {
  }
}
