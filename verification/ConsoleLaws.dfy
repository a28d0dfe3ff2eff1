/** The console as one meets it at the keyboard and in a program: bytes by their
    numbers, lines as typed, and what calls take, show and touch. */
module ConsoleLaws {
  import opened Words
  import opened Memory
  import opened Mmu
  import opened Telnet
  import opened Lines
  import opened Terminal
  import opened TlbTransparency
  import opened Syscalls
  import D = Descriptors

  // --- the wire --------------------------------------------------------------------------

  /** 255 starts a command: WILL echo, a terminal type between 250 and 240 with an
      escaped 255 in it, and a 255 of the user's own. */
  lemma WireExample()
    ensures Decode([255, 251, 1, 65, 255, 250, 24, 255, 255, 7, 255, 240, 66, 255, 255]) == [65, 66, 255]
  {
    hide Decode, Encode;
    Encodings();
    var last := [66, 255, 255];
    var sub := [255, 250, 24, 255, 255, 7, 255, 240] + last;
    DecodeItem(Negotiate(251, 1), [65] + sub);
    DecodeItem(Data(65), sub);
    DecodeItem(Sub([24, 255, 7]), last);
    WireTail();
    assert [255, 251, 1] + ([65] + sub) == [255, 251, 1, 65, 255, 250, 24, 255, 255, 7, 255, 240, 66, 255, 255];
  }

  lemma WireTail()
    ensures Decode([66, 255, 255]) == [66, 255]
  {
    hide Decode, Encode;
    Encodings();
    DecodeItem(Data(66), [255, 255]);
    DecodeItem(Data(255), []);
    DecodeNone();
    assert [66] + [255, 255] == [66, 255, 255] && [255, 255] + [] == [255, 255];
  }

  lemma Encodings()
    ensures Encode(Negotiate(251, 1)) == [255, 251, 1] && Encode(Data(65)) == [65] && Encode(Data(66)) == [66]
    ensures Encode(Data(255)) == [255, 255] && Encode(Sub([24, 255, 7])) == [255, 250, 24, 255, 255, 7, 255, 240]
  {
    EscapeOne(65);
    EscapeOne(66);
    EscapeOne(255);
    EscapeThree();
  }

  lemma EscapeThree()
    ensures Escape([24, 255, 7]) == [24, 255, 255, 7]
  {
    assert [24, 255, 7][1..] == [255, 7] && [255, 7][1..] == [7] && [7][1..] == [];
  }

  lemma DecodeNone()
    ensures Decode([]) == []
  {
  }

  // --- editing -----------------------------------------------------------------------------

  /** Bytes that neither edit nor end a line. */
  predicate Plain(b: u8) { b !in {0, 4, 8, 10, 13, 127} }

  predicate AllPlain(keys: seq<u8>) { forall i :: 0 <= i < |keys| ==> Plain(keys[i]) }

  /** Plain keys are the line, as far as the buffer goes. */
  lemma {:induction false} PlainKeys(keys: seq<u8>, cap: nat)
    requires AllPlain(keys)
    ensures Edit(keys, cap) == keys[..Min(|keys|, cap)] && NoEnd(keys)
    decreases |keys|
  {
    if keys == [] {
    } else {
      PlainKeys(keys[..|keys| - 1], cap);
    }
  }

  /** Backspace and delete take the last byte back, and on an empty line do nothing; so
      does NUL, anywhere; and a plain byte when the buffer is full. */
  lemma EditingKeys(keys: seq<u8>, b: u8, e: u8, cap: nat)
    requires Plain(b) && (e == 8 || e == 127)
    ensures |Edit(keys, cap)| < cap ==> Edit(keys + [b] + [e], cap) == Edit(keys, cap)
    ensures Edit(keys, cap) == [] ==> Edit(keys + [e], cap) == []
    ensures Edit(keys + [0], cap) == Edit(keys, cap)
    ensures |Edit(keys, cap)| == cap ==> Edit(keys + [b], cap) == Edit(keys, cap)
  {
    hide Edit;
    EditOne(keys, b, cap);
    EditOne(keys + [b], e, cap);
    EditOne(keys, e, cap);
    EditOne(keys, 0, cap);
  }

  /** A typed line of any length: whole with its newline while that fits 4100 bytes, and
      its first 4100 bytes without one if not. */
  lemma LineLimit(keys: seq<u8>, rest: seq<u8>)
    requires AllPlain(keys)
    ensures Cook(keys + [10] + rest, LINE_CAP) ==
      Cooked(if |keys| < 4100 then keys + [10] else keys[..4100], rest)
  {
    hide Edit, Cook;
    PlainKeys(keys, LINE_CAP);
    var tail := [10] + rest;
    CookAt(keys, tail, LINE_CAP);
    assert keys + [10] + rest == keys + tail && tail[1..] == rest;
  }

  /** The ways to end a line: CR LF, CR NUL, a bare CR, LF, and the end-of-file key, which
      leaves no newline. */
  lemma LineEndings(keys: seq<u8>, rest: seq<u8>)
    requires AllPlain(keys) && |keys| < 4100
    ensures Cook(keys + [13, 10] + rest, LINE_CAP) == Cook(keys + [13, 0] + rest, LINE_CAP) == Cooked(keys + [10], rest)
    ensures rest != [] && rest[0] != 10 && rest[0] != 0 ==>
      Cook(keys + [13] + rest, LINE_CAP) == Cooked(keys + [10], rest)
    ensures Cook(keys + [4] + rest, LINE_CAP) == Cooked(keys, rest)
  {
    hide Edit, Cook, AfterEnd;
    AfterEndings(rest);
    LineThen(keys, [13, 10], rest);
    LineThen(keys, [13, 0], rest);
    LineThen(keys, [13], rest);
    LineThen(keys, [4], rest);
  }

  lemma AfterEndings(rest: seq<u8>)
    ensures AfterEnd([13, 10] + rest) == AfterEnd([13, 0] + rest) == AfterEnd([4] + rest) == rest
    ensures rest != [] && rest[0] != 10 && rest[0] != 0 ==> AfterEnd([13] + rest) == rest
  {
    assert ([13, 10] + rest)[2..] == rest && ([13, 0] + rest)[2..] == rest;
    assert ([13] + rest)[1..] == rest && ([4] + rest)[1..] == rest;
  }

  lemma LineThen(keys: seq<u8>, end: seq<u8>, rest: seq<u8>)
    requires AllPlain(keys) && |keys| < 4100 && end != [] && end[0] in {4, 10, 13}
    ensures Cook(keys + end + rest, LINE_CAP) ==
      Cooked(if end[0] == 4 then keys else keys + [10], AfterEnd(end + rest))
  {
    hide Edit, Cook, AfterEnd;
    PlainKeys(keys, LINE_CAP);
    CookAt(keys, end + rest, LINE_CAP);
    assert keys + end + rest == keys + (end + rest);
  }

  // --- echo --------------------------------------------------------------------------------

  /** What a key shows, while there is room: printing bytes and tab themselves, other
      control bytes nothing, an erase of something backspace, blank, backspace. */
  lemma KeyShows(keys: seq<u8>, b: u8, cap: nat)
    requires |Edit(keys, cap)| < cap
    ensures (b >= 32 && b != 127) || b == 9 ==> Echo(keys + [b], cap) == Echo(keys, cap) + [b]
    ensures b < 32 && b != 8 && b != 9 ==> Echo(keys + [b], cap) == Echo(keys, cap)
    ensures b == 8 || b == 127 ==>
      Echo(keys + [b], cap) == Echo(keys, cap) + if Edit(keys, cap) == [] then [] else [8, 32, 8]
  {
    hide Edit, Echo;
    EditOne(keys, b, cap);
  }

  /** A line's echo ends in CR LF, whichever way it was ended; at an end-of-file key, and
      where the wire ends, in nothing. */
  lemma LineShows(keys: seq<u8>, tail: seq<u8>, cap: nat)
    requires AllPlain(keys)
    ensures CookEcho(keys + [10] + tail, cap) == Echo(keys, cap) + [13, 10]
    ensures tail != [] ==> CookEcho(keys + [13] + tail, cap) == Echo(keys, cap) + [13, 10]
    ensures CookEcho(keys + [4] + tail, cap) == CookEcho(keys, cap) == CookEcho(keys + [13], cap) == Echo(keys, cap)
  {
    hide Echo, Edit, Cook, CookEcho, EndEcho;
    EndShows(tail);
    LineShowsThen(keys, [10] + tail, cap);
    LineShowsThen(keys, [13] + tail, cap);
    LineShowsThen(keys, [4] + tail, cap);
    LineShowsThen(keys, [13], cap);
    LineShowsThen(keys, [], cap);
    assert keys + [] == keys && Echo(keys, cap) + [] == Echo(keys, cap);
    assert keys + [10] + tail == keys + ([10] + tail) && keys + [13] + tail == keys + ([13] + tail);
    assert keys + [4] + tail == keys + ([4] + tail);
  }

  lemma EndShows(tail: seq<u8>)
    ensures EndEcho([10] + tail) == [13, 10] && EndEcho([4] + tail) == [] && EndEcho([13]) == [] && EndEcho([]) == []
    ensures tail != [] ==> EndEcho([13] + tail) == [13, 10]
  {
  }

  lemma LineShowsThen(keys: seq<u8>, end: seq<u8>, cap: nat)
    requires AllPlain(keys) && (end != [] ==> end[0] in {4, 10, 13})
    ensures CookEcho(keys + end, cap) == Echo(keys, cap) + EndEcho(end)
  {
    hide Echo, Edit, Cook, EndEcho;
    PlainKeys(keys, cap);
    CookAt(keys, end, cap);
  }

  /** The echo of a whole input. */
  function EchoText(d: seq<u8>, cap: nat): seq<u8>
    decreases |d|
  {
    if d == [] then [] else CookEcho(d, cap) + EchoText(Cook(d, cap).rest, cap)
  }

  // --- what a read takes ---------------------------------------------------------------------

  /** A read that completes: no more than asked for and no more than 4096 bytes, the next
      of what is owed; something if it asks for something, unless at an end of file; and
      every input byte is echoed once, when its line is first looked at. */
  lemma ReadAccounts(s: Session, c: Call, tpc: u32)
    requires c.Read? && !Check(s, c, tpc).faulted
    ensures var z, got := Serve(s, c, tpc), Input(s.con, Span(c));
      && |got| <= c.len && |got| <= 4096
      && got + Owed(z.con, LINE_CAP) == Owed(s.con, LINE_CAP)
      && (c.len > 0 && s.con.left != [] ==> got == s.con.left[..Min(Min(c.len, 4096), |s.con.left|)] != [])
      && (c.len == 0 ==> z.con == s.con)
      && z.sent + EchoText(z.con.input, LINE_CAP) == s.sent + EchoText(s.con.input, LINE_CAP)
      && (s.con.left != [] ==> z.sent == s.sent)
  {
    hide Cook, CookEcho, UserWrite, Check, Text;
    var n := Span(c);
    if n > 0 { ReadKeeps(s.con, n, LINE_CAP); }
    EchoNothing(LINE_CAP);
    assert s.sent + [] == s.sent;
    if n > 0 && s.con.left == [] && s.con.input != [] {
      var e, r := CookEcho(s.con.input, LINE_CAP), Cook(s.con.input, LINE_CAP).rest;
      assert EchoText(s.con.input, LINE_CAP) == e + EchoText(r, LINE_CAP);
      assert s.sent + e + EchoText(r, LINE_CAP) == s.sent + (e + EchoText(r, LINE_CAP));
    }
  }

  lemma EchoNothing(cap: nat)
    ensures CookEcho([], cap) == [] && Cook([], cap) == Cooked([], [])
  {
  }

  /** A write takes no input and shows no echo. */
  lemma WriteTakesNothing(s: Session, c: Call, tpc: u32)
    requires c.Write?
    ensures Serve(s, c, tpc).con == s.con && (c.gone ==> Serve(s, c, tpc).sent == s.sent)
  {
    hide Check, FetchBytes;
    assert s.sent + [] == s.sent;
  }

  // --- user memory, by the tables ----------------------------------------------------------------

  /** A byte the emulator may touch for a process: its address is mapped, and not to
      physical 0. */
  predicate Reachable(v: View, va: u32) {
    !Resolve(Cleared(v), va, false).1.fault.pending && Resolve(Cleared(v), va, false).0 != 0
  }

  function ByteAt(v: View, va: u32): u8 { R8(v.cfg.fold, v.mem, Resolve(Cleared(v), va, false).0) }

  lemma WalkOne(v: View, t: Tlb, va: u32)
    requires UserMode(v) && va < KOFF && Coherent(v, t, iset{})
    ensures var a := Translate(Cleared(v), t, va, false);
      (a.pa, a.v) == Resolve(Cleared(v), va, false) && Coherent(a.v, a.t, iset{}) && a.v == v.(fault := a.v.fault)
  {
    hide Translate, Resolve, Coherent;
    FaultCoherent(v, Cleared(v).fault, t);
    TranslateTransparent(Cleared(v), t, va, false, iset{});
    PeekOne(v, t, va);
  }

  lemma FaultCoherent(v: View, f: Fault, t: Tlb)
    requires Coherent(v, t, iset{})
    ensures Coherent(v.(fault := f), t, iset{})
  {
    CoherentTransfers(v, v.(fault := f), t, iset{});
  }

  /** Neither depends on the fault record. */
  lemma SameBytes(v: View, f: Fault, va: u32)
    requires va < KOFF
    ensures Reachable(v.(fault := f), va) == Reachable(v, va) && ByteAt(v.(fault := f), va) == ByteAt(v, va)
  {
    hide Resolve, R8;
    assert Cleared(v.(fault := f)) == Cleared(v).(fault := f.(pending := false));
    FaultUnseen(v, f.(pending := false), va);
    FaultUnseen(v, v.fault.(pending := false), va);
  }

  lemma FaultUnseen(v: View, f: Fault, va: u32)
    requires !f.pending && va < KOFF
    ensures var a, b := Resolve(v.(fault := f), va, false), Resolve(Cleared(v), va, false);
      a.0 == b.0 && a.1.fault.pending == b.1.fault.pending
  {
    hide Apr, WalkFb, ResolveKernel, ResolveHigh;
    var w := v.(fault := f);
    assert SameTables(w, Cleared(v));
    SameWalk(w, Cleared(v), false, Vpn(va));
  }

  /** The string at an address: up to n bytes, to the first that is zero or not
      reachable. */
  function StringAt(v: View, va: u32, n: nat): seq<u8>
    requires va + n <= KOFF
    decreases n
  {
    if n == 0 || !Reachable(v, va) || ByteAt(v, va) == 0 then []
    else [ByteAt(v, va)] + if n == 1 then [] else StringAt(v, va + 1, n - 1)
  }

  lemma {:induction false} StringSame(v: View, f: Fault, va: u32, n: nat)
    requires va + n <= KOFF
    ensures StringAt(v.(fault := f), va, n) == StringAt(v, va, n)
    decreases n
  {
    hide Reachable, ByteAt;
    if n == 0 {
    } else {
      SameBytes(v, f, va);
      if n > 1 { StringSame(v, f, va + 1, n - 1); }
    }
  }

  /** A string peeked at is the one the tables lead to. */
  lemma {:induction false} PeekReads(v: View, t: Tlb, va: u32, n: nat)
    requires UserMode(v) && va + n <= KOFF && Coherent(v, t, iset{})
    ensures PeekStr(v, t, va, n).bytes == StringAt(v, va, n)
    decreases n
  {
    hide Translate, Resolve, UserMode, R8, Coherent, Reachable, ByteAt;
    if n == 0 {
    } else {
      WalkOne(v, t, va);
      PeekStep(v, t, va, n);
      var a := Translate(Cleared(v), t, va, false);
      if n > 1 {
        UserModeKept(v, a.v.fault);
        StringSame(v, a.v.fault, va + 1, n - 1);
        PeekReads(a.v, a.t, va + 1, n - 1);
      } else {
        PeekNone(a.v, a.t, Wrap(va + 1));
      }
    }
  }

  lemma PeekNone(v: View, t: Tlb, va: u32)
    ensures PeekStr(v, t, va, 0).bytes == []
  {
  }

  lemma PeekStep(v: View, t: Tlb, va: u32, n: nat)
    requires n > 0 && va < KOFF && UserMode(v) && Coherent(v, t, iset{})
    ensures var a := Translate(Cleared(v), t, va, false);
      PeekStr(v, t, va, n).bytes ==
        if Reachable(v, va) && ByteAt(v, va) != 0 then [ByteAt(v, va)] + PeekStr(a.v, a.t, Wrap(va + 1), n - 1).bytes
        else []
  {
    hide Translate, Resolve, UserMode, R8, Coherent;
    WalkOne(v, t, va);
  }

  /** Storing stops at a byte that is not reachable: neither it nor any behind it is
      stored. */
  lemma PutStops(v: View, t: Tlb, va: u32, src: seq<u8>)
    requires UserMode(v) && va < KOFF && Coherent(v, t, iset{}) && !Reachable(v, va)
    ensures UserWrite(v, t, va, src).n == 0 && UserWrite(v, t, va, src).v == v
  {
    hide Translate, Resolve, UserMode, Coherent;
    WalkOne(v, t, va);
  }

  // --- descriptors -------------------------------------------------------------------------------

  /** A set is filled in if the emulator answers for any of the first three descriptors or
      the kernel for the first: its process gets it back; else it is taken for new. */
  lemma FilledReturns(t: D.Table, pid: int, ppid: int)
    requires pid > 0 && pid != t.cur && pid in t.saved
    ensures var s := t.saved[pid];
      s.con[0] != 0 || s.con[1] != 0 || s.con[2] != 0 || s.krn[0] != 0 ==> D.Switch(t, pid, ppid).live == s
    ensures var s := t.saved[pid];
      s.con[0] == s.con[1] == s.con[2] == s.krn[0] == 0 && ppid <= 0 ==> D.Switch(t, pid, ppid).live == t.live
  {
    assert D.SaveCurrent(t)[pid] == t.saved[pid];
  }

  /** There are slots for 24 processes: from then on a new one runs on the set that was
      live, and none is lost. */
  lemma TableHolds(t: D.Table, pid: int, ppid: int)
    requires |t.saved| <= 24 && pid > 0 && pid != t.cur
    ensures var z := D.Switch(t, pid, ppid);
      |z.saved| <= 24 && z.cur == pid &&
      (pid in z.saved <==> pid in t.saved || |D.SaveCurrent(t)| < 24) && (pid !in z.saved ==> z.live == t.live)
  {
  }

  /** A process and its parent, seen for the first time, both get slots while there are
      any, and the child's is what it runs on. */
  lemma ParentClaimed(t: D.Table, pid: int, ppid: int)
    requires pid > 0 && ppid > 0 && pid != t.cur && pid !in t.saved && |D.SaveCurrent(t)| < 23
    ensures var z := D.Switch(t, pid, ppid);
      pid in z.saved && ppid in z.saved && z.saved[pid] == z.live &&
      (ppid !in D.SaveCurrent(t) && ppid != pid ==> z.live == t.live && z.saved[ppid] == D.ZERO_SET)
  {
  }
}
